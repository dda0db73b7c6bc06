module Conversions {

  lemma ByteComesBack(a: nat)
    requires a < 0x100
    ensures (a as bv8) as nat == a
  {
  }
}

/** The log's checksum library computes the same CRC as the engine, over the bytes of a record. */
module WalChecksum {
  import opened Conversions
  import opened Crc
  import opened WalFrames

  function Bits(data: Bytes): (bits: seq<bv8>)
    ensures |bits| == |data|
  {
    seq(|data|, i requires 0 <= i < |data| => data[i] as bv8)
  }

  function Ieee(data: Bytes): nat {
    Checksum(Bits(data)) as nat
  }

  lemma SameByte(a: byte, b: byte)
    requires a as bv8 == b as bv8
    ensures a == b
  {
    ByteComesBack(a);
    ByteComesBack(b);
  }

  lemma WordComesBack(a: bv32)
    ensures (a as nat) as bv32 == a
  {
  }

  lemma SameBits(p: Bytes, q: Bytes)
    requires Bits(p) == Bits(q)
    ensures p == q
  {
    assert |Bits(p)| == |Bits(q)|;
    forall i | 0 <= i < |p| ensures p[i] == q[i] {
      assert Bits(p)[i] == Bits(q)[i];
      SameByte(p[i], q[i]);
    }
  }

  /** So the log reports every burst of up to four bytes. */
  lemma IeeeDetectsBursts(codec: Codec)
    requires codec.sum == Ieee
    ensures DetectsBursts(codec)
  {
    forall p, q, at, width | DifferOnlyWithin(p, q, at, width) && width <= 4 && Ieee(p) == Ieee(q)
      ensures p == q
    {
      SameSum(p, q, at, width);
    }
  }

  lemma SameSum(p: Bytes, q: Bytes, at: nat, width: nat)
    requires DifferOnlyWithin(p, q, at, width) && width <= 4 && Ieee(p) == Ieee(q)
    ensures p == q
  {
    WordComesBack(Checksum(Bits(p)));
    WordComesBack(Checksum(Bits(q)));
    DifferenceWithinWindowDetected(Bits(p), Bits(q), at, width);
    SameBits(p, q);
  }
}
