/** Octets, and the big-endian 32-bit integers that the peer wire protocol is made of. */
module Bytes {
  type byte = bv8

  const TWO_31 := 0x8000_0000
  const TWO_32 := 0x1_0000_0000
  const TWO_64 := 0x1_0000_0000_0000_0000

  /** Conversion to a 32-bit int. */
  function Int32(n: int): int {
    (n + TWO_31) % TWO_32 - TWO_31
  }

  function Min(x: int, y: int): int {
    if x < y then x else y
  }

  predicate NoZero(s: seq<byte>) {
    forall i :: 0 <= i < |s| ==> s[i] != 0
  }

  function Flatten(parts: seq<seq<byte>>): seq<byte> {
    if parts == [] then [] else parts[0] + Flatten(parts[1..])
  }

  lemma {:induction false} FlattenSnoc(parts: seq<seq<byte>>, part: seq<byte>)
    ensures Flatten(parts + [part]) == Flatten(parts) + part
  {
    if parts == [] {
      assert [part][1..] == [];
    } else {
      FlattenSnoc(parts[1..], part);
      assert (parts + [part])[1..] == parts[1..] + [part];
    }
  }

  /** `bit` shifted into the place of `mask`. */
  function Place(bit: int, mask: byte): byte {
    if bit == 0 then 0 else mask
  }

  function Weight(b: byte, mask: byte, weight: nat): nat {
    if b & mask == 0 then 0 else weight
  }

  /** The octet whose binary digits are those of `k`. */
  function ByteOf(k: int): byte
    requires 0 <= k < 256
  {
    Place(k / 128, 0x80) | Place(k / 64 % 2, 0x40) | Place(k / 32 % 2, 0x20) | Place(k / 16 % 2, 0x10)
    | Place(k / 8 % 2, 0x08) | Place(k / 4 % 2, 0x04) | Place(k / 2 % 2, 0x02) | Place(k % 2, 0x01)
  }

  /** The unsigned value of an octet. */
  function ByteVal(b: byte): (k: nat)
    ensures k < 256
  {
    Weight(b, 0x80, 128) + Weight(b, 0x40, 64) + Weight(b, 0x20, 32) + Weight(b, 0x10, 16)
    + Weight(b, 0x08, 8) + Weight(b, 0x04, 4) + Weight(b, 0x02, 2) + Weight(b, 0x01, 1)
  }

  lemma Halves(k: int, m: int)
    requires 0 <= k && m in {1, 2, 4, 8, 16, 32, 64}
    ensures k / m == k / (2 * m) * 2 + k / m % 2
  {
  }

  lemma BinaryDigits(k: int)
    requires 0 <= k < 256
    ensures k == k / 128 * 128 + k / 64 % 2 * 64 + k / 32 % 2 * 32 + k / 16 % 2 * 16
                 + k / 8 % 2 * 8 + k / 4 % 2 * 4 + k / 2 % 2 * 2 + k % 2
    ensures 0 <= k / 128 <= 1
  {
    Halves(k, 1);
    Halves(k, 2);
    Halves(k, 4);
    Halves(k, 8);
    Halves(k, 16);
    Halves(k, 32);
    Halves(k, 64);
  }

  /** Each digit can be read back through its mask. */
  lemma DigitsOfPlaces(b: byte, p7: int, p6: int, p5: int, p4: int, p3: int, p2: int, p1: int, p0: int)
    requires b == Place(p7, 0x80) | Place(p6, 0x40) | Place(p5, 0x20) | Place(p4, 0x10)
                  | Place(p3, 0x08) | Place(p2, 0x04) | Place(p1, 0x02) | Place(p0, 0x01)
    ensures (b & 0x80 == 0 <==> p7 == 0) && (b & 0x40 == 0 <==> p6 == 0)
    ensures (b & 0x20 == 0 <==> p5 == 0) && (b & 0x10 == 0 <==> p4 == 0)
    ensures (b & 0x08 == 0 <==> p3 == 0) && (b & 0x04 == 0 <==> p2 == 0)
    ensures (b & 0x02 == 0 <==> p1 == 0) && (b & 0x01 == 0 <==> p0 == 0)
  {
  }

  lemma WeighDigits(b: byte, p7: int, p6: int, p5: int, p4: int, p3: int, p2: int, p1: int, p0: int)
    requires 0 <= p7 <= 1 && 0 <= p6 <= 1 && 0 <= p5 <= 1 && 0 <= p4 <= 1
    requires 0 <= p3 <= 1 && 0 <= p2 <= 1 && 0 <= p1 <= 1 && 0 <= p0 <= 1
    requires Weight(b, 0x80, 128) == 128 * p7 && Weight(b, 0x40, 64) == 64 * p6
    requires Weight(b, 0x20, 32) == 32 * p5 && Weight(b, 0x10, 16) == 16 * p4
    requires Weight(b, 0x08, 8) == 8 * p3 && Weight(b, 0x04, 4) == 4 * p2
    requires Weight(b, 0x02, 2) == 2 * p1 && Weight(b, 0x01, 1) == p0
    ensures ByteVal(b) == 128 * p7 + 64 * p6 + 32 * p5 + 16 * p4 + 8 * p3 + 4 * p2 + 2 * p1 + p0
  {
  }

  lemma ByteOfDigits(b: byte, p7: int, p6: int, p5: int, p4: int, p3: int, p2: int, p1: int, p0: int)
    requires 0 <= p7 <= 1 && 0 <= p6 <= 1 && 0 <= p5 <= 1 && 0 <= p4 <= 1
    requires 0 <= p3 <= 1 && 0 <= p2 <= 1 && 0 <= p1 <= 1 && 0 <= p0 <= 1
    requires b == Place(p7, 0x80) | Place(p6, 0x40) | Place(p5, 0x20) | Place(p4, 0x10)
                  | Place(p3, 0x08) | Place(p2, 0x04) | Place(p1, 0x02) | Place(p0, 0x01)
    ensures ByteVal(b) == 128 * p7 + 64 * p6 + 32 * p5 + 16 * p4 + 8 * p3 + 4 * p2 + 2 * p1 + p0
  {
    DigitsOfPlaces(b, p7, p6, p5, p4, p3, p2, p1, p0);
    WeighDigits(b, p7, p6, p5, p4, p3, p2, p1, p0);
  }

  lemma ByteValOfByteOf(k: int)
    requires 0 <= k < 256
    ensures ByteVal(ByteOf(k)) == k
  {
    BinaryDigits(k);
    ByteOfDigits(ByteOf(k), k / 128, k / 64 % 2, k / 32 % 2, k / 16 % 2, k / 8 % 2, k / 4 % 2, k / 2 % 2, k % 2);
  }

  /** htonl: the four octets of `n`, most significant first. */
  function ToBE32(n: int): (s: seq<byte>)
    requires 0 <= n < TWO_32
    ensures |s| == 4
  {
    [ByteOf(n / 0x1000000), ByteOf(n / 0x10000 % 256), ByteOf(n / 0x100 % 256), ByteOf(n % 256)]
  }

  /** ntohl: the value of four octets. */
  function FromBE32(s: seq<byte>): (n: nat)
    requires |s| == 4
    ensures n < TWO_32
  {
    ByteVal(s[0]) * 0x1000000 + ByteVal(s[1]) * 0x10000 + ByteVal(s[2]) * 0x100 + ByteVal(s[3])
  }

  lemma Base256Digits(n: int)
    requires 0 <= n < TWO_32
    ensures n / 0x1000000 * 0x1000000 + n / 0x10000 % 256 * 0x10000 + n / 0x100 % 256 * 0x100 + n % 256 == n
  {
    var q1, q2, q3 := n / 0x100, n / 0x10000, n / 0x1000000;
    assert n == 256 * q1 + n % 256;
    assert q1 == 256 * q2 + q1 % 256;
    assert q2 == 256 * q3 + q2 % 256;
    assert q3 < 256;
  }

  lemma Assemble(n: int, b3: byte, b2: byte, b1: byte, b0: byte)
    requires 0 <= n < TWO_32
    requires ByteVal(b3) == n / 0x1000000 && ByteVal(b2) == n / 0x10000 % 256
    requires ByteVal(b1) == n / 0x100 % 256 && ByteVal(b0) == n % 256
    ensures FromBE32([b3, b2, b1, b0]) == n
  {
    Base256Digits(n);
  }

  /** ntohl undoes htonl on every 32-bit number. */
  lemma BE32RoundTrip(n: int)
    requires 0 <= n < TWO_32
    ensures FromBE32(ToBE32(n)) == n
  {
    ByteValOfByteOf(n / 0x1000000);
    ByteValOfByteOf(n / 0x10000 % 256);
    ByteValOfByteOf(n / 0x100 % 256);
    ByteValOfByteOf(n % 256);
    Assemble(n, ByteOf(n / 0x1000000), ByteOf(n / 0x10000 % 256), ByteOf(n / 0x100 % 256), ByteOf(n % 256));
  }

  /** A number of two octets. */
  lemma SmallWord(n: nat, high: nat, low: nat)
    requires n == 0x100 * high + low && high < 256 && low < 256
    ensures n < TWO_32 && ToBE32(n) == [0, 0, ByteOf(high), ByteOf(low)]
  {
    assert ByteOf(0) == 0;
    hide ByteOf;
    assert n / 0x1000000 == 0 && n / 0x10000 % 256 == 0 && n / 0x100 % 256 == high && n % 256 == low;
  }
}
