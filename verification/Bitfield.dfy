/** src/bitfield/bitfield.c: a packed array of bits, the highest-ordered bit of each byte first. */
module Bitfields {
  import opened Bytes

  /** 0x80 shifted right by `k`. */
  function Mask(k: nat): byte
    requires k < 8
  {
    if k == 0 then 0x80 else if k == 1 then 0x40 else if k == 2 then 0x20 else if k == 3 then 0x10
    else if k == 4 then 0x08 else if k == 5 then 0x04 else if k == 6 then 0x02 else 0x01
  }

  predicate BitAt(bytes: seq<byte>, i: nat)
    requires i < 8 * |bytes|
  {
    bytes[i / 8] & Mask(i % 8) != 0
  }

  /** The bits that a byte string packs, padding included. */
  function BitsOf(bytes: seq<byte>): (bits: seq<bool>)
    ensures |bits| == 8 * |bytes|
    ensures forall i :: 0 <= i < |bits| ==> bits[i] == BitAt(bytes, i)
  {
    seq(8 * |bytes|, i requires 0 <= i < 8 * |bytes| => BitAt(bytes, i))
  }

  function BytesFor(bitCount: nat): nat {
    (bitCount + 7) / 8
  }

  lemma MasksAreIndependent(b: byte, k: nat, j: nat)
    requires k < 8 && j < 8
    ensures (b | Mask(k)) & Mask(j) != 0 <==> j == k || b & Mask(j) != 0
    ensures (b & !Mask(k)) & Mask(j) != 0 <==> j != k && b & Mask(j) != 0
  {
  }

  /** A byte is 0xFF exactly when its eight bits are set, and 0x00 exactly when none is. */
  lemma ByteIsItsBits(b: byte)
    ensures b == 0xFF <==> forall k :: 0 <= k < 8 ==> b & Mask(k) != 0
    ensures b == 0x00 <==> forall k :: 0 <= k < 8 ==> b & Mask(k) == 0
  {
    if forall k :: 0 <= k < 8 ==> b & Mask(k) != 0 {
      assert b & Mask(0) != 0 && b & Mask(1) != 0 && b & Mask(2) != 0 && b & Mask(3) != 0;
      assert b & Mask(4) != 0 && b & Mask(5) != 0 && b & Mask(6) != 0 && b & Mask(7) != 0;
    }
    if forall k :: 0 <= k < 8 ==> b & Mask(k) == 0 {
      assert b & Mask(0) == 0 && b & Mask(1) == 0 && b & Mask(2) == 0 && b & Mask(3) == 0;
      assert b & Mask(4) == 0 && b & Mask(5) == 0 && b & Mask(6) == 0 && b & Mask(7) == 0;
    }
  }

  /** Bits [8k, 8k + 8) of `bits` all have value `v`. */
  ghost predicate ByteUniform(bits: seq<bool>, k: nat, v: bool)
    requires 8 * k + 8 <= |bits|
  {
    forall j :: 8 * k <= j < 8 * k + 8 ==> bits[j] == v
  }

  lemma FullByte(bytes: seq<byte>, k: nat)
    requires k < |bytes|
    ensures bytes[k] == 0xFF <==> ByteUniform(BitsOf(bytes), k, true)
    ensures bytes[k] == 0x00 <==> ByteUniform(BitsOf(bytes), k, false)
  {
    var bits := BitsOf(bytes);
    assert forall i :: 0 <= i < 8 ==> bits[8 * k + i] == (bytes[k] & Mask(i) != 0);
    assert forall j :: 8 * k <= j < 8 * k + 8 ==>
        j == 8 * k + (j - 8 * k) && bits[j] == (bytes[k] & Mask(j - 8 * k) != 0);
    ByteIsItsBits(bytes[k]);
  }

  lemma SetOneBit(bytes: seq<byte>, i: nat, b': byte, v: bool)
    requires i < 8 * |bytes|
    requires b' == if v then bytes[i / 8] | Mask(i % 8) else bytes[i / 8] & !Mask(i % 8)
    ensures BitsOf(bytes[i / 8 := b']) == BitsOf(bytes)[i := v]
  {
    var bytes' := bytes[i / 8 := b'];
    forall j | 0 <= j < 8 * |bytes|
      ensures BitAt(bytes', j) == if j == i then v else BitAt(bytes, j)
    {
      if j / 8 == i / 8 {
        MasksAreIndependent(bytes[i / 8], i % 8, j % 8);
        assert j == 8 * (j / 8) + j % 8 && i == 8 * (i / 8) + i % 8;
      }
    }
    assert BitsOf(bytes') == BitsOf(bytes)[i := v];
  }

  /** `done` bits with the value `v`, and the rest as the default byte has them. */
  function FreshBits(bitCount: nat, done: nat, v: bool, b: byte): (bits: seq<bool>)
    ensures |bits| == 8 * BytesFor(bitCount)
  {
    seq(8 * BytesFor(bitCount), i requires 0 <= i => if i < done then v else b & Mask(i % 8) != 0)
  }

  lemma FreshBitsStart(bytes: seq<byte>, bitCount: nat, v: bool, b: byte)
    requires |bytes| == BytesFor(bitCount) && forall i :: 0 <= i < |bytes| ==> bytes[i] == b
    ensures BitsOf(bytes) == FreshBits(bitCount, 0, v, b)
  {
    hide Mask;
  }

  lemma FreshBitsNext(bitCount: nat, done: nat, v: bool, b: byte)
    requires done < bitCount
    ensures FreshBits(bitCount, done, v, b)[done := v] == FreshBits(bitCount, done + 1, v, b)
  {
    hide Mask;
  }

  class Bitfield {
    const bitCount: nat
    const bytes: array<byte>

    ghost predicate Valid() {
      bytes.Length == BytesFor(bitCount)
    }

    /** The abstract value: every stored bit, including the padding of the last byte. */
    ghost function Bits(): (bits: seq<bool>)
      reads this, bytes
    {
      BitsOf(bytes[..])
    }

    /** bitfield_new: every byte gets the default byte, then every counted bit the default bit (0 or 1). */
    constructor (bitCount: nat, defaultBit: int, defaultByte: byte)
      requires defaultBit in {0, 1}
      ensures Valid() && this.bitCount == bitCount && fresh(bytes)
      ensures Bits() == FreshBits(bitCount, bitCount, defaultBit == 1, defaultByte)
    {
      this.bitCount := bitCount;
      bytes := new byte[BytesFor(bitCount)](_ => defaultByte);
      new;
      hide FreshBits;
      hide BitsOf;
      FreshBitsStart(bytes[..], bitCount, defaultBit == 1, defaultByte);
      for i := 0 to bitCount
        invariant Bits() == FreshBits(bitCount, i, defaultBit == 1, defaultByte)
      {
        SetBit(i, defaultBit);
        FreshBitsNext(bitCount, i, defaultBit == 1, defaultByte);
      }
    }

    /** bitfield_set_bit: out-of-range bits and values other than 0 and 1 are ignored. */
    method SetBit(bit: int, val: int)
      requires Valid()
      modifies bytes
      ensures Bits() == if 0 <= bit < bitCount && val in {0, 1} then old(Bits())[bit := val == 1] else old(Bits())
    {
      hide Mask;
      hide BitsOf;
      if 0 <= bit < bitCount {
        var byteIndex := bit / 8;
        var mask := Mask(bit % 8);
        ghost var before := bytes[..];
        if val == 0 {
          bytes[byteIndex] := bytes[byteIndex] & !mask;
          SetOneBit(before, bit, bytes[byteIndex], false);
          assert bytes[..] == before[byteIndex := bytes[byteIndex]];
        } else if val == 1 {
          bytes[byteIndex] := bytes[byteIndex] | mask;
          SetOneBit(before, bit, bytes[byteIndex], true);
          assert bytes[..] == before[byteIndex := bytes[byteIndex]];
        }
      }
    }

    /** bitfield_get_bit: reads any stored bit, padding included. */
    method GetBit(bit: int) returns (r: int)
      requires Valid() && 0 <= bit < 8 * bytes.Length
      ensures r == if Bits()[bit] then 1 else 0
    {
      r := if bytes[bit / 8] & Mask(bit % 8) != 0 then 1 else 0;
    }
  }
}
