/** Byte-level population count: count_set_bits in pymvptree/mvpwrapper.c,
    and the per-byte distance built on it. */
module Bits {

  /** An unsigned char. */
  type Byte = bv8

  /** 1 when the bit selected by `mask` is set in `n`. */
  function Bit(n: Byte, mask: Byte): nat
  {
    if n & mask != 0 then 1 else 0
  }

  /** Number of 1 bits in a byte: the lowest bit plus the bits of the
      byte shifted right by one. */
  function PopCount(n: Byte): nat
    decreases n
  {
    if n == 0 then 0 else Bit(n, 1) + PopCount(n >> 1)
  }

  /** Reference definition: one term per bit position. */
  function BitSum(n: Byte): nat
  {
    Bit(n, 0x01) + Bit(n, 0x02) + Bit(n, 0x04) + Bit(n, 0x08) +
    Bit(n, 0x10) + Bit(n, 0x20) + Bit(n, 0x40) + Bit(n, 0x80)
  }

  lemma BitSumShift(n: Byte)
    ensures BitSum(n) == Bit(n, 1) + BitSum(n >> 1)
  {
  }

  /** The shift-and-count definition agrees with the bit-by-bit sum. */
  lemma {:induction false} PopCountIsBitSum(n: Byte)
    ensures PopCount(n) == BitSum(n)
    decreases n
  {
    if n != 0 {
      PopCountIsBitSum(n >> 1);
      BitSumShift(n);
    }
  }

  /** A byte has at most 8 set bits, and none exactly when it is 0. */
  lemma PopCountRange(n: Byte)
    ensures PopCount(n) <= 8
    ensures PopCount(n) == 0 <==> n == 0
  {
    PopCountIsBitSum(n);
  }

  /** `n & (n - 1)` clears exactly one set bit, the lowest one. */
  lemma ClearLowestSetBit(n: Byte)
    requires n != 0
    ensures PopCount(n & (n - 1)) == PopCount(n) - 1
  {
    PopCountIsBitSum(n);
    PopCountIsBitSum(n & (n - 1));
  }

  /** Kernighan's loop: each round clears the lowest set bit and counts it,
      so it runs once per set bit. */
  method CountSetBits(n0: Byte) returns (count: nat)
    ensures count == PopCount(n0)
    ensures count <= 8
  {
    PopCountRange(n0);
    var n := n0;
    count := 0;
    while n != 0
      invariant count + PopCount(n) == PopCount(n0)
      decreases PopCount(n)
    {
      ClearLowestSetBit(n);
      n := n & (n - 1);
      count := count + 1;
    }
  }

  /** Number of bit positions in which two bytes differ. */
  function ByteDistance(x: Byte, y: Byte): nat
  {
    PopCount(x ^ y)
  }

  lemma ByteDistanceRange(x: Byte, y: Byte)
    ensures ByteDistance(x, y) <= 8
    ensures ByteDistance(x, y) == 0 <==> x == y
  {
    PopCountRange(x ^ y);
  }

  lemma ByteDistanceSymmetric(x: Byte, y: Byte)
    ensures ByteDistance(x, y) == ByteDistance(y, x)
  {
    assert x ^ y == y ^ x;
  }

  /** x and z differ in a bit only where x and y, or y and z, differ. */
  lemma BitXorTriangle(x: Byte, y: Byte, z: Byte, mask: Byte)
    ensures Bit(x ^ z, mask) <= Bit(x ^ y, mask) + Bit(y ^ z, mask)
  {
  }

  /** Bit differences obey the triangle inequality. */
  lemma ByteDistanceTriangle(x: Byte, y: Byte, z: Byte)
    ensures ByteDistance(x, z) <= ByteDistance(x, y) + ByteDistance(y, z)
  {
    PopCountIsBitSum(x ^ z);
    PopCountIsBitSum(x ^ y);
    PopCountIsBitSum(y ^ z);
    BitXorTriangle(x, y, z, 0x01);
    BitXorTriangle(x, y, z, 0x02);
    BitXorTriangle(x, y, z, 0x04);
    BitXorTriangle(x, y, z, 0x08);
    BitXorTriangle(x, y, z, 0x10);
    BitXorTriangle(x, y, z, 0x20);
    BitXorTriangle(x, y, z, 0x40);
    BitXorTriangle(x, y, z, 0x80);
  }
}
