/** The bitwise CRC-32 of the storage engine (the CRC of section 8 of RFC 1952), and the errors
    it is guaranteed to detect. */
module Crc {
  import opened ShiftRegister

  const POLYNOMIAL: bv32 := 0xEDB8_8320

  const START: bv32 := 0xFFFF_FFFF

  /** One turn of the inner loop. */
  function Shift(crc: bv32): bv32 {
    if crc & 1 != 0 then (crc >> 1) ^ POLYNOMIAL else crc >> 1
  }

  function Xor(a: bv32, b: bv32): bv32 { a ^ b }

  function Low(byte: bv8): bv32 { byte as bv32 }

  function Up(word: bv32): bv32 { word << 8 }

  const CRC: Register<bv32> := Register(Shift, Xor, 0, Low, Up, 8)

  function Checksum(data: seq<bv8>): bv32 {
    !Fold(CRC, START, data)
  }

  method Crc32Checksum(data: seq<bv8>) returns (sum: bv32)
    ensures sum == Checksum(data)
  {
    var crc: bv32 := 0xFFFF_FFFF;
    for i := 0 to |data|
      invariant Fold(CRC, crc, data[i..]) == Fold(CRC, START, data)
    {
      crc := AbsorbByte(crc, data[i]);
      assert data[i..][1..] == data[i + 1..];
    }
    return !crc;
  }

  /** The body of the outer loop. */
  method AbsorbByte(before: bv32, byte: bv8) returns (crc: bv32)
    ensures crc == Absorb(CRC, before, byte)
  {
    crc := before ^ (byte as bv32);
    ghost var mixed := crc;
    assert mixed == CRC.plus(before, CRC.input(byte));
    for k := 0 to 8
      invariant Steps(CRC, crc, 8 - k) == Steps(CRC, mixed, 8)
    {
      ghost var was := crc;
      if crc & 1 != 0 {
        crc := (crc >> 1) ^ 0xEDB8_8320;
      } else {
        crc := crc >> 1;
      }
      assert crc == CRC.step(was);
    }
  }

  // ---------------------------------------------------------------- words of 32 bits

  lemma NotNot(a: bv32)
    ensures !!a == a
  {
  }

  lemma XorAssociates(a: bv32, b: bv32, c: bv32)
    ensures (a ^ b) ^ c == a ^ (b ^ c)
  {
  }

  lemma XorZero(a: bv32)
    ensures a ^ 0 == a
  {
  }

  lemma XorTwice(a: bv32, x: bv32)
    ensures (a ^ x) ^ x == a
    ensures x ^ (x ^ a) == a
  {
  }

  lemma XorIsGroup()
    ensures Group(CRC)
  {
    forall a, b, c ensures CRC.plus(CRC.plus(a, b), c) == CRC.plus(a, CRC.plus(b, c)) { PlusAssociates(a, b, c); }
    forall a ensures CRC.plus(a, CRC.zero) == a { XorZero(a); }
  }

  lemma PlusAssociates(a: bv32, b: bv32, c: bv32)
    ensures CRC.plus(CRC.plus(a, b), c) == CRC.plus(a, CRC.plus(b, c))
  {
    var ab, bc := CRC.plus(a, b), CRC.plus(b, c);
    assert ab ^ c == a ^ bc by { XorAssociates(a, b, c); }
  }

  lemma XorCancelsRight()
    ensures forall a, b, x :: CRC.plus(a, x) == CRC.plus(b, x) ==> a == b
  {
    forall a, b, x | CRC.plus(a, x) == CRC.plus(b, x) ensures a == b {
      XorTwice(a, x);
      XorTwice(b, x);
    }
  }

  lemma XorCancelsLeft()
    ensures forall a, b, x :: CRC.plus(x, a) == CRC.plus(x, b) ==> a == b
  {
    forall a, b, x | CRC.plus(x, a) == CRC.plus(x, b) ensures a == b {
      XorTwice(a, x);
      XorTwice(b, x);
    }
  }

  // ---------------------------------------------------------------- the shift step

  /** The polynomial sets the top bit, which a plain shift leaves clear, so no two registers shift
      alike. */
  lemma ShiftInjective(a: bv32, b: bv32)
    requires Shift(a) == Shift(b)
    ensures a == b
  {
  }

  /** The shift goes through exclusive or, whichever of the two registers lose a one. */
  lemma ShiftLinear(a: bv32, b: bv32)
    ensures a & 1 == 0 && b & 1 == 0 ==> Shift(a ^ b) == Shift(a) ^ Shift(b)
    ensures a & 1 == 0 && b & 1 != 0 ==> Shift(a ^ b) == Shift(a) ^ Shift(b)
    ensures a & 1 != 0 && b & 1 == 0 ==> Shift(a ^ b) == Shift(a) ^ Shift(b)
    ensures a & 1 != 0 && b & 1 != 0 ==> Shift(a ^ b) == Shift(a) ^ Shift(b)
  {
  }

  // ---------------------------------------------------------------- room for one more byte

  lemma ShiftUndoes(a: bv32, moved: bv32)
    requires moved == a << 1 && a & 0x8000_0000 == 0
    ensures Shift(moved) == a
  {
  }

  lemma StepsOnce(a: bv32, b: bv32, moved: bv32, n: nat)
    requires moved == b << 1 && b & 0x8000_0000 == 0 && Steps(CRC, b, n) == a
    ensures Steps(CRC, moved, n + 1) == a
  {
    ShiftUndoes(b, moved);
  }

  lemma MovedByBits(a: bv32, b: bv32, c: bv32, d: bv32, e: bv32)
    requires a & 0xF000_0000 == 0
    requires b == a << 1 && c == b << 1 && d == c << 1 && e == d << 1
    ensures a & 0x8000_0000 == 0 && b & 0x8000_0000 == 0 && c & 0x8000_0000 == 0 && d & 0x8000_0000 == 0
    ensures e == a << 4
  {
  }

  lemma FourShifts(a: bv32, b: bv32, c: bv32, d: bv32, e: bv32, n: nat)
    requires b == a << 1 && c == b << 1 && d == c << 1 && e == d << 1
    requires a & 0x8000_0000 == 0 && b & 0x8000_0000 == 0 && c & 0x8000_0000 == 0 && d & 0x8000_0000 == 0
    ensures Steps(CRC, e, n + 4) == Steps(CRC, a, n)
  {
    var end := Steps(CRC, a, n);
    StepsOnce(end, a, b, n);
    StepsOnce(end, b, c, n + 1);
    StepsOnce(end, c, d, n + 2);
    StepsOnce(end, d, e, n + 3);
  }

  lemma HalfByteMoves(a: bv32, moved: bv32, n: nat)
    requires a & 0xF000_0000 == 0 && moved == a << 4
    ensures Steps(CRC, moved, n + 4) == Steps(CRC, a, n)
  {
    var b := a << 1;
    var c := b << 1;
    var d := c << 1;
    MovedByBits(a, b, c, d, d << 1);
    FourShifts(a, b, c, d, moved, n);
  }

  lemma MovedByHalves(a: bv32, half: bv32, moved: bv32)
    requires a & 0xFF00_0000 == 0 && half == a << 4 && moved == a << 8
    ensures a & 0xF000_0000 == 0 && half & 0xF000_0000 == 0 && moved == half << 4
  {
  }

  /** Eight shifts undo a move by one byte. */
  lemma ByteMoves(a: bv32, moved: bv32, n: nat)
    requires a & 0xFF00_0000 == 0 && moved == a << 8
    ensures Steps(CRC, moved, n + 8) == Steps(CRC, a, n)
  {
    var half := a << 4;
    MovedByHalves(a, half, moved);
    HalfByteMoves(a, half, n);
    HalfByteMoves(half, moved, n + 4);
  }

  lemma WordGrows(low: bv8, rest: bv32, word: bv32)
    requires word == Low(low) ^ (rest << 8)
    ensures rest & 0xFFFF_0000 == 0 ==> word & 0xFF00_0000 == 0
    ensures rest & 0xFFFF_FF00 == 0 ==> word & 0xFFFF_0000 == 0
    ensures rest == 0 ==> word & 0xFFFF_FF00 == 0
  {
  }

  /** The bytes a word was made of. */
  function Bytes(word: bv32, n: nat): seq<bv8>
    decreases n
  {
    if n == 0 then [] else [(word & 0xFF) as bv8] + Bytes(word >> 8, n - 1)
  }

  lemma WordSplits(low: bv8, rest: bv32, word: bv32)
    requires rest & 0xFF00_0000 == 0 && word == Low(low) ^ (rest << 8)
    ensures (word & 0xFF) as bv8 == low && word >> 8 == rest
  {
  }

  lemma {:induction false} WordFits(window: seq<bv8>)
    requires |window| <= 3
    ensures Word(CRC, window) & 0xFF00_0000 == 0
    ensures |window| <= 2 ==> Word(CRC, window) & 0xFFFF_0000 == 0
    ensures |window| <= 1 ==> Word(CRC, window) & 0xFFFF_FF00 == 0
  {
    if |window| > 0 {
      WordFits(window[1..]);
      WordGrows(window[0], Word(CRC, window[1..]), Word(CRC, window));
    }
  }

  lemma WordUnfolds(window: seq<bv8>, rest: bv32, word: bv32)
    requires 0 < |window| <= 4 && rest == Word(CRC, window[1..]) && word == Word(CRC, window)
    ensures rest & 0xFF00_0000 == 0 && word == Low(window[0]) ^ (rest << 8)
  {
    WordFits(window[1..]);
  }

  lemma BytesOnce(word: bv32, low: bv8, rest: bv32, n: nat)
    requires rest & 0xFF00_0000 == 0 && word == Low(low) ^ (rest << 8)
    ensures Bytes(word, n + 1) == [low] + Bytes(rest, n)
  {
    WordSplits(low, rest, word);
  }

  lemma FirstAndRest(window: seq<bv8>)
    requires |window| > 0
    ensures [window[0]] + window[1..] == window
  {
  }

  lemma {:induction false} BytesOfWord(window: seq<bv8>, word: bv32)
    requires |window| <= 4 && word == Word(CRC, window)
    ensures Bytes(word, |window|) == window
  {
    if |window| > 0 {
      var rest := Word(CRC, window[1..]);
      WordUnfolds(window, rest, word);
      BytesOfWord(window[1..], rest);
      BytesOnce(word, window[0], rest, |window| - 1);
      FirstAndRest(window);
    }
  }

  lemma WordsComeBack()
    ensures BringsBack(CRC)
  {
    forall w: seq<bv8> | |w| <= 3 ensures Steps(CRC, CRC.up(Word(CRC, w)), CRC.width) == Word(CRC, w) {
      WordFits(w);
      ByteMoves(Word(CRC, w), CRC.up(Word(CRC, w)), 0);
    }
  }

  lemma WordsAreDifferent()
    ensures WordsDiffer(CRC)
  {
    forall x: seq<bv8>, y: seq<bv8> | |x| == |y| <= 4 && Word(CRC, x) == Word(CRC, y) ensures x == y {
      BytesOfWord(x, Word(CRC, x));
      BytesOfWord(y, Word(CRC, y));
    }
  }

  // ---------------------------------------------------------------- the engine's checksum

  /** Burst detection: messages of any length that may differ only in one window of up to four
      consecutive bytes have the same checksum only if they are the same. */
  lemma BurstDetected(before: seq<bv8>, x: seq<bv8>, y: seq<bv8>, after: seq<bv8>)
    requires |x| == |y| <= 4
    requires Checksum(before + x + after) == Checksum(before + y + after)
    ensures x == y
  {
    XorIsGroup();
    XorCancelsLeft();
    XorCancelsRight();
    forall a, b | CRC.step(a) == CRC.step(b) ensures a == b { ShiftInjective(a, b); }
    forall a, b ensures CRC.step(CRC.plus(a, b)) == CRC.plus(CRC.step(a), CRC.step(b)) { ShiftLinear(a, b); }
    WordsComeBack();
    WordsAreDifferent();
    NotNot(Fold(CRC, START, before + x + after));
    NotNot(Fold(CRC, START, before + y + after));
    BurstDecides(CRC, START, before, x, y, after);
  }

  /** The same, for two byte strings compared position by position. */
  lemma DifferenceWithinWindowDetected(p: seq<bv8>, q: seq<bv8>, at: nat, width: nat)
    requires |p| == |q| && at + width <= |p| && width <= 4
    requires forall i :: 0 <= i < |p| && !(at <= i < at + width) ==> p[i] == q[i]
    ensures Checksum(p) == Checksum(q) <==> p == q
  {
    var x, y := p[at..at + width], q[at..at + width];
    assert p == p[..at] + x + p[at + width..];
    assert p[..at] == q[..at] && p[at + width..] == q[at + width..];
    assert q == p[..at] + y + p[at + width..];
    if Checksum(p) == Checksum(q) { BurstDetected(p[..at], x, y, p[at + width..]); }
  }
}
