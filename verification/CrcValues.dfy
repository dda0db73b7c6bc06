/** Values that only this CRC has: they fix its polynomial, its start value and its inversion. */
module CrcValues {
  import opened ShiftRegister
  import opened Crc

  // ---------------------------------------------------------------- stepping by bytes

  function EightShifts(a: bv32): bv32 {
    Shift(Shift(Shift(Shift(Shift(Shift(Shift(Shift(a))))))))
  }

  lemma ShiftsAdd(a: bv32, n: nat)
    ensures Steps(CRC, a, n + 8) == Steps(CRC, EightShifts(a), n)
  {
    var b := Shift(a);
    var c := Shift(b);
    var d := Shift(c);
    var e := Shift(d);
    var f := Shift(e);
    var g := Shift(f);
    var h := Shift(g);
    StepOnce(a, n + 7);
    StepOnce(b, n + 6);
    StepOnce(c, n + 5);
    StepOnce(d, n + 4);
    StepOnce(e, n + 3);
    StepOnce(f, n + 2);
    StepOnce(g, n + 1);
    StepOnce(h, n);
  }

  lemma StepOnce(a: bv32, n: nat)
    ensures Steps(CRC, a, n + 1) == Steps(CRC, Shift(a), n)
  {
  }

  lemma AbsorbShifts(state: bv32, byte: bv8, mixed: bv32)
    requires mixed == state ^ (byte as bv32)
    ensures Absorb(CRC, state, byte) == EightShifts(mixed)
  {
    ShiftsAdd(mixed, 0);
    assert CRC.plus(state, CRC.input(byte)) == mixed;
    assert Absorb(CRC, state, byte) == Steps(CRC, mixed, 8);
  }

  lemma OnesShift(a: bv32, b: bv32, c: bv32, d: bv32)
    requires a == 0xFFFF_FFFF && b == 0x2DFD_1072 && c == 0xBE26_ED00 && d == 0x00BE_26ED
    ensures EightShifts(a) == b
    ensures EightShifts(b) == c
    ensures EightShifts(c) == d
    ensures EightShifts(d) == 0xDEBB_20E3
  {
  }

  lemma AllOnesSteps(ones: bv32, end: bv32)
    requires ones == 0xFFFF_FFFF && end == 0xDEBB_20E3
    ensures Steps(CRC, ones, 32) == end
  {
    var b, c, d := EightShifts(ones), EightShifts(EightShifts(ones)), EightShifts(EightShifts(EightShifts(ones)));
    OnesShift(ones, 0x2DFD_1072, 0xBE26_ED00, 0x00BE_26ED);
    ShiftsAdd(ones, 24);
    ShiftsAdd(b, 16);
    ShiftsAdd(c, 8);
    ShiftsAdd(d, 0);
  }

  // ---------------------------------------------------------------- a message and its checksum

  function LittleEndian(w: bv32): seq<bv8> {
    [(w & 0xFF) as bv8, ((w >> 8) & 0xFF) as bv8, ((w >> 16) & 0xFF) as bv8, (w >> 24) as bv8]
  }

  lemma FourBytesMake(w: bv32)
    ensures (w & 0xFF) ^ ((((w >> 8) & 0xFF) ^ ((((w >> 16) & 0xFF) ^ ((w >> 24) << 8)) << 8)) << 8) == w
  {
  }

  lemma WordOfFour(a: bv8, b: bv8, c: bv8, d: bv8)
    ensures Word(CRC, [a, b, c, d])
         == (a as bv32) ^ (((b as bv32) ^ (((c as bv32) ^ ((d as bv32) << 8)) << 8)) << 8)
  {
    var w3 := CRC.plus(CRC.input(d), CRC.up(CRC.zero));
    var w2 := CRC.plus(CRC.input(c), CRC.up(w3));
    var w1 := CRC.plus(CRC.input(b), CRC.up(w2));
    assert w3 == d as bv32;
    assert [d][1..] == [] && [c, d][1..] == [d] && [b, c, d][1..] == [c, d] && [a, b, c, d][1..] == [b, c, d];
    assert Word(CRC, [d]) == w3;
    assert Word(CRC, [c, d]) == w2;
    assert Word(CRC, [b, c, d]) == w1;
  }

  lemma WordOfLittleEndian(w: bv32)
    ensures Word(CRC, LittleEndian(w)) == w
  {
    var s := LittleEndian(w);
    WordOfFour(s[0], s[1], s[2], s[3]);
    FourBytesMake(w);
  }

  /** Appending to a message the four bytes of its checksum, lowest first, always gives this checksum:
      a receiver need not take them off again to test them. */
  lemma Residue(data: seq<bv8>)
    ensures Checksum(data + LittleEndian(Checksum(data))) == 0x2144_DF1C
  {
    var crc := Fold(CRC, START, data);
    var window := LittleEndian(Checksum(data));
    FoldConcat(CRC, START, data, window);
    WordOfLittleEndian(Checksum(data));
    CrcIsLinear();
    FoldIsWord(CRC, crc, window);
    Complement(crc);
    assert CRC.plus(crc, Checksum(data)) == 0xFFFF_FFFF;
    AllOnesSteps(CRC.plus(crc, Checksum(data)), 0xDEBB_20E3);
  }

  lemma Complement(a: bv32)
    ensures a ^ !a == 0xFFFF_FFFF
  {
  }

  lemma CrcIsLinear()
    ensures Linear(CRC) && Group(CRC) && BringsBack(CRC)
  {
    XorIsGroup();
    forall a, b ensures CRC.step(CRC.plus(a, b)) == CRC.plus(CRC.step(a), CRC.step(b)) { ShiftLinear(a, b); }
    WordsComeBack();
  }

  // ---------------------------------------------------------------- the check value

  lemma AbsorbTo(state: bv32, data: seq<bv8>, i: nat, next: bv32)
    requires i < |data| && EightShifts(state ^ (data[i] as bv32)) == next
    ensures Fold(CRC, state, data[i..]) == Fold(CRC, next, data[i + 1..])
  {
    AbsorbShifts(state, data[i], state ^ (data[i] as bv32));
    assert data[i..][1..] == data[i + 1..];
  }

  /** The register goes through these states, one for each byte. */
  ghost predicate Passes(states: seq<bv32>, data: seq<bv8>) {
    && |states| == |data| + 1
    && forall i :: 0 <= i < |data| ==> EightShifts(states[i] ^ (data[i] as bv32)) == states[i + 1]
  }

  lemma {:induction false} FoldAlong(states: seq<bv32>, data: seq<bv8>, i: nat)
    requires Passes(states, data) && i <= |data|
    ensures Fold(CRC, states[i], data[i..]) == states[|data|]
    decreases |data| - i
  {
    if i < |data| {
      AbsorbTo(states[i], data, i, states[i + 1]);
      FoldAlong(states, data, i + 1);
    }
  }

  /** The text 123456789. */
  const DIGITS: seq<bv8> := [0x31, 0x32, 0x33, 0x34, 0x35, 0x36, 0x37, 0x38, 0x39]

  const STATES: seq<bv32> := [
    0xFFFF_FFFF, 0x7C23_1048, 0xB0AC_BB32, 0x77B7_9C2D, 0x641C_1F5C,
    0x340A_C5E3, 0xF68D_2C9E, 0xAFFC_9660, 0x651F_2550, 0x340B_C6D9]

  lemma FirstDigits()
    ensures EightShifts(0xFFFF_FFFF ^ 0x31) == 0x7C23_1048
    ensures EightShifts(0x7C23_1048 ^ 0x32) == 0xB0AC_BB32
    ensures EightShifts(0xB0AC_BB32 ^ 0x33) == 0x77B7_9C2D
  {
  }

  lemma MiddleDigits()
    ensures EightShifts(0x77B7_9C2D ^ 0x34) == 0x641C_1F5C
    ensures EightShifts(0x641C_1F5C ^ 0x35) == 0x340A_C5E3
    ensures EightShifts(0x340A_C5E3 ^ 0x36) == 0xF68D_2C9E
  {
  }

  lemma LastDigits()
    ensures EightShifts(0xF68D_2C9E ^ 0x37) == 0xAFFC_9660
    ensures EightShifts(0xAFFC_9660 ^ 0x38) == 0x651F_2550
    ensures EightShifts(0x651F_2550 ^ 0x39) == 0x340B_C6D9
  {
  }

  lemma DigitsPass()
    ensures Passes(STATES, DIGITS)
  {
    FirstDigits();
    MiddleDigits();
    LastDigits();
    forall i | 0 <= i < |DIGITS| ensures EightShifts(STATES[i] ^ (DIGITS[i] as bv32)) == STATES[i + 1] {
    }
  }

  /** The check value by which implementations of CRCs are told apart. */
  lemma CheckValue()
    ensures Checksum(DIGITS) == 0xCBF4_3926
  {
    DigitsPass();
    FoldAlong(STATES, DIGITS, 0);
    assert DIGITS[0..] == DIGITS;
  }
}
