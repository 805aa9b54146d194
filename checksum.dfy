/** The packet checksum both generations compute (`wander_checksum`,
    `ulsr_checksum`): the bitwise complement of the u32 sum, wrapping, of
    every byte of the packet after the leading 4-byte `checksum` field. */
module Checksum {
  import opened CLib

  /** The plain sum of some bytes, added front to back. */
  function ByteSum(bytes: seq<U8>): nat
  {
    if bytes == [] then 0 else ByteSum(bytes[..|bytes| - 1]) + bytes[|bytes| - 1]
  }

  /** The checksum of a packet of `size` bytes. */
  function ChecksumOf(bytes: seq<U8>, size: nat): U32
    requires size <= |bytes|
  {
    if size <= 4 then NotU32(0) else NotU32(ByteSum(bytes[4..size]) % U32_LIMIT)
  }

  /** Adding whole multiples of the modulus does not change a residue. */
  lemma {:induction false} ModAddMultiple(a: nat, k: nat, m: nat)
    requires m > 0
    ensures (a + k * m) % m == a % m
  {
    if k > 0 {
      ModAddMultiple(a, k - 1, m);
      assert a + k * m == (a + (k - 1) * m) + m;
      ModAddOnce(a + (k - 1) * m, m);
    }
  }

  lemma ModAddOnce(b: nat, m: nat)
    requires m > 0
    ensures (b + m) % m == b % m
  {
    var q, r := b / m, b % m;
    var q2, r2 := (b + m) / m, (b + m) % m;
    assert b == q * m + r;
    assert b + m == q2 * m + r2;
    var d := q2 - (q + 1);
    assert d * m == r - r2;
    if d > 0 {
      MulAtLeast(d, m);
    } else if d < 0 {
      MulAtLeast(-d, m);
    }
  }

  lemma {:induction false} MulAtLeast(d: nat, m: nat)
    requires d >= 1
    ensures d * m >= m
  {
    if d > 1 {
      MulAtLeast(d - 1, m);
      assert d * m == (d - 1) * m + m;
    }
  }

  /** Wrapping the accumulator after every addition gives the wrapped sum. */
  lemma AddU32OfWrapped(s: nat, x: U32)
    ensures AddU32(s % U32_LIMIT, x) == (s + x) % U32_LIMIT
  {
    var q := s / U32_LIMIT;
    assert s == s % U32_LIMIT + q * U32_LIMIT;
    ModAddMultiple(s % U32_LIMIT + x, q, U32_LIMIT);
  }

  /** Extending the summed range by one byte adds that byte. */
  lemma ByteSumExtend(bytes: seq<U8>, from: nat, i: nat)
    requires from <= i < |bytes|
    ensures ByteSum(bytes[from..i + 1]) == ByteSum(bytes[from..i]) + bytes[i]
  {
    assert bytes[from..i + 1][..i - from] == bytes[from..i];
  }

  /** The checksum field itself does not take part: rewriting bytes 0..3
      (for instance storing the checksum there) leaves the checksum as it
      was. */
  lemma ChecksumIgnoresHeader(bytes: seq<U8>, header: seq<U8>, size: nat)
    requires 4 <= size <= |bytes| && |header| == 4
    ensures ChecksumOf(header + bytes[4..], size) == ChecksumOf(bytes, size)
  {
    assert (header + bytes[4..])[4..size] == bytes[4..size];
  }

  /** A packet no longer than its checksum field sums no bytes. */
  lemma ShortPacketChecksum(bytes: seq<U8>, size: nat)
    requires size <= 4 && size <= |bytes|
    ensures ChecksumOf(bytes, size) == U32_LIMIT - 1
  {
  }

  /** The one's-complement check a receiver can make: the wrapped sum plus
      the checksum is all ones. */
  lemma SumPlusChecksumIsAllOnes(bytes: seq<U8>, size: nat)
    requires 4 < size <= |bytes|
    ensures ByteSum(bytes[4..size]) % U32_LIMIT + ChecksumOf(bytes, size) == U32_LIMIT - 1
  {
  }
}
