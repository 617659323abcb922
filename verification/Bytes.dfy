/**
 Octets and little-endian 16-bit words, as the radio frames carry them.
 An octet is a bit-vector, because flags and the checksum work on bits; `Value` and `ToByte`
 cross over to the integers in which the code computes with lengths and fragment numbers.
 */
module Bytes {
  type Byte = bv8

  predicate LowBit(b: Byte) {
    b & 1 == 1
  }

  function Shr(b: Byte): Byte {
    b >> 1
  }

  /** Doubles `b` and puts `bit` in its place. */
  function Shl(b: Byte, bit: bool): Byte {
    (b << 1) | if bit then 1 else 0
  }

  function ValueBits(b: Byte, k: nat): nat {
    if k == 0 then 0 else 2 * ValueBits(Shr(b), k - 1) + if LowBit(b) then 1 else 0
  }

  function ByteBits(n: nat, k: nat): Byte
    decreases k
  {
    if k == 0 then 0 else Shl(ByteBits(n / 2, k - 1), n % 2 == 1)
  }

  /** The unsigned value of an octet. */
  function Value(b: Byte): (n: nat)
    ensures n < 256
  {
    ValueBound(b, 8);
    assert Power2(8) == 256 by {
      assert Power2(4) == 16;
    }
    ValueBits(b, 8)
  }

  /** The octet of value `n`. */
  function ToByte(n: nat): Byte
    requires n < 256
  {
    ByteBits(n, 8)
  }

  /** The low octet of a word. */
  function Low(v: nat): Byte {
    ToByte(v % 256)
  }

  /** The second octet of a word. */
  function High(v: nat): Byte {
    Low(v / 256)
  }

  function Word16(lo: Byte, hi: Byte): (v: nat)
    ensures v < 0x1_0000
  {
    Value(lo) + 256 * Value(hi)
  }

  function Power2(k: nat): nat {
    if k == 0 then 1 else 2 * Power2(k - 1)
  }

  lemma {:induction false} ValueBound(b: Byte, k: nat)
    ensures ValueBits(b, k) < Power2(k)
    decreases k
  {
    hide Shr, LowBit;
    if k > 0 {
      ValueBound(Shr(b), k - 1);
    }
  }

  lemma ShiftBack(b: Byte, bit: bool)
    requires b <= 0x7F
    ensures Shr(Shl(b, bit)) == b && LowBit(Shl(b, bit)) == bit
  {
  }

  function Limit(k: nat): Byte
    requires k <= 8
  {
    if k == 0 then 0 else Shl(Limit(k - 1), true)
  }

  lemma ShlMonotone(b: Byte, c: Byte, bit: bool)
    requires b <= c <= 0x7F
    ensures Shl(b, bit) <= Shl(c, true)
  {
  }

  lemma LimitSmall(k: nat)
    requires k <= 7
    ensures Limit(k) <= 0x7F
  {
    assert Limit(2) == 3 && Limit(4) == 0xF && Limit(6) == 0x3F && Limit(7) == 0x7F;
  }

  lemma {:induction false} ByteBitsSmall(n: nat, k: nat)
    requires k <= 8
    ensures ByteBits(n, k) <= Limit(k)
    decreases k
  {
    hide Shl;
    if k > 0 {
      ByteBitsSmall(n / 2, k - 1);
      LimitSmall(k - 1);
      ShlMonotone(ByteBits(n / 2, k - 1), Limit(k - 1), n % 2 == 1);
    }
  }

  lemma {:induction false} ValueOfByteBits(n: nat, k: nat)
    requires k <= 8 && n < Power2(k)
    ensures ValueBits(ByteBits(n, k), k) == n
    decreases k
  {
    hide Shr, Shl, LowBit;
    if k > 0 {
      ValueOfByteBits(n / 2, k - 1);
      ByteBitsSmall(n / 2, k - 1);
      LimitSmall(k - 1);
      ShiftBack(ByteBits(n / 2, k - 1), n % 2 == 1);
    }
  }

  lemma ValueOfByte(n: nat)
    requires n < 256
    ensures Value(ToByte(n)) == n
  {
    hide ByteBits, ValueBits;
    assert Power2(4) == 16 && Power2(8) == 256;
    ValueOfByteBits(n, 8);
  }

  lemma ValueOfLow(v: nat)
    ensures Value(Low(v)) == v % 256
  {
    hide ToByte, Value;
    ValueOfByte(v % 256);
  }

  lemma Word16OfOctets(v: nat)
    requires v < 0x1_0000
    ensures Word16(Low(v), High(v)) == v
  {
    hide Low, Value;
    ValueOfLow(v);
    ValueOfLow(v / 256);
    assert v / 256 % 256 == v / 256;
  }
}
