/**
 The frame checksum: the bytewise reflected CRC-32 of src/comms/ares_radio_protocol.cpp.

 Facts about single words are proved bit by bit in small lemmas; everything above them hides the
 bit-vector definitions and argues with those facts alone.
 */
module Crc32 {
  import opened Bytes

  const POLY: bv32 := 0xEDB8_8320
  const INIT: bv32 := 0xFFFF_FFFF

  // ----- The register -----

  function Xor(a: bv32, b: bv32): bv32 {
    a ^ b
  }

  function Wide(b: Byte): bv32 {
    b as bv32
  }

  predicate Odd(c: bv32) {
    c & 1 != 0
  }

  function Half(c: bv32): bv32 {
    c >> 1
  }

  function CrcBit(c: bv32): bv32 {
    if Odd(c) then Xor(Half(c), POLY) else Half(c)
  }

  function CrcBits(c: bv32, k: nat): bv32
    decreases k
  {
    if k == 0 then c else CrcBits(CrcBit(c), k - 1)
  }

  function CrcByte(c: bv32, b: Byte): bv32 {
    CrcBits(Xor(c, Wide(b)), 8)
  }

  function Feed(c: bv32, data: seq<Byte>): bv32
    decreases |data|
  {
    if data == [] then c else Feed(CrcByte(c, data[0]), data[1..])
  }

  function Checksum(data: seq<Byte>): bv32 {
    Xor(Feed(INIT, data), 0xFFFF_FFFF)
  }

  lemma {:induction false} FeedConcat(c: bv32, s: seq<Byte>, t: seq<Byte>)
    ensures Feed(c, s + t) == Feed(Feed(c, s), t)
    decreases |s|
  {
    hide CrcByte;
    if s == [] {
      assert s + t == t;
    } else {
      assert (s + t)[1..] == s[1..] + t;
      FeedConcat(CrcByte(c, s[0]), s[1..], t);
    }
  }

  lemma FeedOne(c: bv32, b: Byte)
    ensures Feed(c, [b]) == CrcByte(c, b)
  {
    hide CrcByte;
    assert [b][1..] == [];
  }

  lemma {:induction false} CrcBitsAdd(c: bv32, j: nat, k: nat)
    ensures CrcBits(c, j + k) == CrcBits(CrcBits(c, j), k)
    decreases j
  {
    hide CrcBit;
    if j > 0 {
      CrcBitsAdd(CrcBit(c), j - 1, k);
    }
  }

  /** Eight shifts of the inner loop of `crc32`. */
  method ShiftOctet(c: bv32) returns (crc: bv32)
    ensures crc == CrcBits(c, 8)
  {
    hide CrcBit;
    crc := c;
    var bit := 0;
    while bit < 8
      invariant bit <= 8
      invariant CrcBits(crc, 8 - bit) == CrcBits(c, 8)
    {
      crc := ShiftOnce(crc);
      bit := bit + 1;
    }
  }

  method ShiftOnce(c: bv32) returns (crc: bv32)
    ensures crc == CrcBit(c)
  {
    hide Xor;
    if c & 1 != 0 {
      crc := Xor(c >> 1, 0xEDB8_8320);
    } else {
      crc := c >> 1;
    }
  }

  /** The loop of `crc32` over `len` octets of a buffer. */
  method ComputeCrc32(buf: array<Byte>, start: nat, len: nat) returns (crc: bv32)
    requires start + len <= buf.Length
    ensures crc == Checksum(buf[start..start + len])
  {
    hide CrcByte, Xor, Wide, CrcBits;
    crc := 0xFFFF_FFFF;
    var i := 0;
    while i < len
      invariant i <= len
      invariant crc == Feed(INIT, buf[start..start + i])
    {
      ghost var done := buf[start..start + i];
      assert CrcByte(crc, buf[start + i]) == CrcBits(Xor(crc, Wide(buf[start + i])), 8) by {
        UnfoldCrcByte(crc, buf[start + i]);
      }
      assert Feed(INIT, done + [buf[start + i]]) == CrcByte(crc, buf[start + i]) by {
        FeedConcat(INIT, done, [buf[start + i]]);
        FeedOne(crc, buf[start + i]);
      }
      assert buf[start..start + i + 1] == done + [buf[start + i]];
      crc := ShiftOctet(Xor(crc, Wide(buf[start + i])));
      i := i + 1;
    }
    crc := Xor(crc, 0xFFFF_FFFF);
  }

  lemma UnfoldCrcByte(c: bv32, b: Byte)
    ensures CrcByte(c, b) == CrcBits(Xor(c, Wide(b)), 8)
  {
    hide CrcBits, Xor, Wide;
  }

  // ----- Linearity and injectivity of the register step -----

  lemma OddXor(a: bv32, b: bv32)
    ensures Odd(Xor(a, b)) == (Odd(a) != Odd(b))
  {
  }

  lemma HalfXor(a: bv32, b: bv32)
    ensures Half(Xor(a, b)) == Xor(Half(a), Half(b))
  {
  }

  lemma XorCommutes(a: bv32, b: bv32)
    ensures Xor(a, b) == Xor(b, a)
  {
  }

  lemma XorAssociates(a: bv32, b: bv32, c: bv32)
    ensures Xor(Xor(a, b), c) == Xor(a, Xor(b, c))
  {
  }

  lemma XorZero(a: bv32)
    ensures Xor(a, 0) == a
  {
  }

  lemma XorTwice(a: bv32, b: bv32, m: bv32)
    ensures Xor(Xor(a, m), Xor(b, m)) == Xor(a, b)
  {
    hide Xor;
    XorAssociates(a, m, Xor(b, m));
    XorCommutes(b, m);
    XorAssociates(m, m, b);
    XorSelf(m);
    XorCommutes(0, b);
    XorZero(b);
  }

  lemma XorSelf(m: bv32)
    ensures Xor(m, m) == 0
  {
  }

  lemma XorCancels(a: bv32, b: bv32, m: bv32)
    requires Xor(a, m) == Xor(b, m)
    ensures a == b
  {
  }

  lemma XorComplement(r: bv32, w: bv32)
    ensures Xor(r, w) == 0xFFFF_FFFF <==> w == Xor(r, 0xFFFF_FFFF)
  {
    if Xor(r, w) == 0xFFFF_FFFF {
      XorSolve(r, w);
    } else if w == Xor(r, 0xFFFF_FFFF) {
      XorSolved(r);
    }
  }

  lemma XorSolve(r: bv32, w: bv32)
    requires Xor(r, w) == 0xFFFF_FFFF
    ensures w == Xor(r, 0xFFFF_FFFF)
  {
  }

  lemma XorSolved(r: bv32)
    ensures Xor(r, Xor(r, 0xFFFF_FFFF)) == 0xFFFF_FFFF
  {
  }

  lemma CrcBitLinear(a: bv32, b: bv32)
    ensures CrcBit(Xor(a, b)) == Xor(CrcBit(a), CrcBit(b))
  {
    hide Xor, Half, Odd;
    var x, y := Half(a), Half(b);
    OddXor(a, b);
    HalfXor(a, b);
    XorTwice(x, y, POLY);
    XorAssociates(x, y, POLY);
    XorAssociates(x, POLY, y);
    XorCommutes(y, POLY);
  }

  lemma {:induction false} CrcBitsLinear(a: bv32, b: bv32, k: nat)
    ensures CrcBits(Xor(a, b), k) == Xor(CrcBits(a, k), CrcBits(b, k))
    decreases k
  {
    hide CrcBit, Xor;
    if k > 0 {
      CrcBitLinear(a, b);
      CrcBitsLinear(CrcBit(a), CrcBit(b), k - 1);
    }
  }

  lemma CrcBitInjective(a: bv32, b: bv32)
    requires CrcBit(a) == CrcBit(b)
    ensures a == b
  {
    TapsShow(a);
    TapsShow(b);
    assert Odd(a) == Odd(b);
    if Odd(a) {
      XorCancels(Half(a), Half(b), POLY);
    }
    HalfAndParity(a, b);
  }

  /** The top bit of the new register tells whether the polynomial was added. */
  lemma TapsShow(a: bv32)
    ensures Odd(a) <==> CrcBit(a) >= 0x8000_0000
  {
  }

  lemma HalfAndParity(a: bv32, b: bv32)
    requires Half(a) == Half(b) && Odd(a) == Odd(b)
    ensures a == b
  {
  }

  lemma {:induction false} CrcBitsInjective(a: bv32, b: bv32, k: nat)
    requires CrcBits(a, k) == CrcBits(b, k)
    ensures a == b
    decreases k
  {
    hide CrcBit;
    if k > 0 {
      CrcBitsInjective(CrcBit(a), CrcBit(b), k - 1);
      CrcBitInjective(a, b);
    }
  }

  /** Equal data keeps different registers apart. */
  lemma {:induction false} FeedInjective(a: bv32, b: bv32, data: seq<Byte>)
    requires Feed(a, data) == Feed(b, data)
    ensures a == b
    decreases |data|
  {
    hide CrcByte, CrcBits, Xor, Wide;
    if data != [] {
      FeedInjective(CrcByte(a, data[0]), CrcByte(b, data[0]), data[1..]);
      UnfoldCrcByte(a, data[0]);
      UnfoldCrcByte(b, data[0]);
      CrcBitsInjective(Xor(a, Wide(data[0])), Xor(b, Wide(data[0])), 8);
      XorCancels(a, b, Wide(data[0]));
    }
  }

  // ----- Up to four octets enter the register as one word -----

  function Join(b: Byte, p: bv32): bv32 {
    (b as bv32) | (p << 8)
  }

  function Up8(p: bv32): bv32 {
    p << 8
  }

  function Pack(data: seq<Byte>): bv32
    requires |data| <= 4
    decreases |data|
  {
    if data == [] then 0 else Join(data[0], Pack(data[1..]))
  }

  lemma JoinIsXor(b: Byte, p: bv32)
    ensures Join(b, p) == Xor(Wide(b), Up8(p))
  {
  }

  lemma JoinInjective(a: Byte, p: bv32, b: Byte, q: bv32)
    requires p <= 0xFF_FFFF && q <= 0xFF_FFFF
    requires Join(a, p) == Join(b, q)
    ensures a == b && p == q
  {
  }

  lemma JoinBound(b: Byte, p: bv32)
    ensures p <= 0xFFFF ==> Join(b, p) <= 0xFF_FFFF
    ensures p <= 0xFF ==> Join(b, p) <= 0xFFFF
    ensures p == 0 ==> Join(b, p) <= 0xFF
  {
  }

  lemma {:induction false} PackBound(data: seq<Byte>)
    requires |data| <= 3
    ensures Pack(data) <= 0xFF_FFFF
    ensures |data| <= 2 ==> Pack(data) <= 0xFFFF
    ensures |data| <= 1 ==> Pack(data) <= 0xFF
    decreases |data|
  {
    hide Join;
    if data != [] {
      PackBound(data[1..]);
      JoinBound(data[0], Pack(data[1..]));
    }
  }

  function Double(y: bv32): bv32 {
    y << 1
  }

  lemma CrcBitOfDouble(y: bv32)
    requires y <= 0x7FFF_FFFF
    ensures CrcBit(Double(y)) == y
  {
  }

  lemma FourDoubles(y: bv32)
    ensures Double(Double(Double(Double(y)))) == y << 4
    ensures (y << 4) << 4 == Up8(y)
  {
  }

  lemma CrcBitsOfDouble(y: bv32, k: nat)
    requires y <= 0x7FFF_FFFF
    ensures CrcBits(Double(y), k + 1) == CrcBits(y, k)
  {
    hide CrcBit, Double;
    CrcBitOfDouble(y);
  }

  lemma CrcBitsOfUp8(y: bv32)
    requires y <= 0xFF_FFFF
    ensures CrcBits(Up8(y), 8) == y
  {
    hide CrcBit, Double, Up8, CrcBits;
    var y1 := Double(y);
    var y2 := Double(y1);
    var y3 := Double(y2);
    var y4 := Double(y3);
    var y5 := Double(y4);
    var y6 := Double(y5);
    var y7 := Double(y6);
    FourDoubles(y);
    FourDoubles(y4);
    DoublesStaySmall(y);
    CrcBitsOfDouble(y7, 7);
    CrcBitsOfDouble(y6, 6);
    CrcBitsOfDouble(y5, 5);
    CrcBitsOfDouble(y4, 4);
    CrcBitsOfDouble(y3, 3);
    CrcBitsOfDouble(y2, 2);
    CrcBitsOfDouble(y1, 1);
    CrcBitsOfDouble(y, 0);
    CrcBitsZero(y);
  }

  lemma DoublesStaySmall(y: bv32)
    requires y <= 0xFF_FFFF
    ensures y <= 0x7FFF_FFFF
    ensures Double(y) <= 0x7FFF_FFFF
    ensures Double(Double(y)) <= 0x7FFF_FFFF
    ensures Double(Double(Double(y))) <= 0x7FFF_FFFF
    ensures Double(Double(Double(Double(y)))) <= 0x7FFF_FFFF
    ensures Double(Double(Double(Double(Double(y))))) <= 0x7FFF_FFFF
    ensures Double(Double(Double(Double(Double(Double(y)))))) <= 0x7FFF_FFFF
    ensures Double(Double(Double(Double(Double(Double(Double(y))))))) <= 0x7FFF_FFFF
  {
  }

  lemma CrcBitsZero(y: bv32)
    ensures CrcBits(y, 0) == y
  {
    hide CrcBit;
  }

  lemma {:induction false} FeedIsOneWord(c: bv32, data: seq<Byte>)
    requires |data| <= 4
    ensures Feed(c, data) == CrcBits(Xor(c, Pack(data)), 8 * |data|)
    decreases |data|
  {
    hide CrcByte, CrcBits, CrcBit, Xor, Wide, Join, Up8;
    if data == [] {
      XorZero(c);
      CrcBitsZero(c);
    } else {
      var d, p := Wide(data[0]), Pack(data[1..]);
      PackBound(data[1..]);
      calc {
        CrcBits(Xor(c, Pack(data)), 8 * |data|);
      ==  { JoinIsXor(data[0], p); XorAssociates(c, d, Up8(p)); }
        CrcBits(Xor(Xor(c, d), Up8(p)), 8 + 8 * |data[1..]|);
      ==  { CrcBitsAdd(Xor(Xor(c, d), Up8(p)), 8, 8 * |data[1..]|); }
        CrcBits(CrcBits(Xor(Xor(c, d), Up8(p)), 8), 8 * |data[1..]|);
      ==  { CrcBitsLinear(Xor(c, d), Up8(p), 8); CrcBitsOfUp8(p); UnfoldCrcByte(c, data[0]); }
        CrcBits(Xor(CrcByte(c, data[0]), p), 8 * |data[1..]|);
      ==  { FeedIsOneWord(CrcByte(c, data[0]), data[1..]); }
        Feed(CrcByte(c, data[0]), data[1..]);
      }
    }
  }

  lemma {:induction false} PackInjective(s: seq<Byte>, t: seq<Byte>)
    requires |s| == |t| <= 4 && Pack(s) == Pack(t)
    ensures s == t
    decreases |s|
  {
    hide Join;
    if s != [] {
      PackBound(s[1..]);
      PackBound(t[1..]);
      JoinInjective(s[0], Pack(s[1..]), t[0], Pack(t[1..]));
      PackInjective(s[1..], t[1..]);
      assert s == [s[0]] + s[1..] && t == [t[0]] + t[1..];
    }
  }

  // ----- The trailer and the constant residue -----

  /** Octet `k` of a register, lowest first. */
  function Octet(crc: bv32, k: nat): Byte
    requires k < 4
  {
    if k == 0 then (crc & 0xFF) as Byte
    else if k == 1 then ((crc >> 8) & 0xFF) as Byte
    else if k == 2 then ((crc >> 16) & 0xFF) as Byte
    else ((crc >> 24) & 0xFF) as Byte
  }

  /** The four checksum octets in wire order. */
  function Trailer(crc: bv32): (t: seq<Byte>)
    ensures |t| == 4
  {
    [Octet(crc, 0), Octet(crc, 1), Octet(crc, 2), Octet(crc, 3)]
  }

  lemma JoinOctets(c: bv32)
    ensures Join(Octet(c, 0), Join(Octet(c, 1), Join(Octet(c, 2), Join(Octet(c, 3), 0)))) == c
  {
  }

  lemma PackTrailer(crc: bv32)
    ensures Pack(Trailer(crc)) == crc
  {
    hide Join, Octet;
    var t := Trailer(crc);
    assert t[1..] == [Octet(crc, 1), Octet(crc, 2), Octet(crc, 3)];
    assert t[1..][1..] == [Octet(crc, 2), Octet(crc, 3)];
    assert t[1..][1..][1..] == [Octet(crc, 3)];
    assert t[1..][1..][1..][1..] == [];
    assert Pack(t[1..][1..][1..]) == Join(Octet(crc, 3), 0);
    assert Pack(t[1..][1..]) == Join(Octet(crc, 2), Join(Octet(crc, 3), 0));
    JoinOctets(crc);
  }

  /** The register value every intact frame leaves behind. */
  const RESIDUE: bv32 := CrcBits(0xFFFF_FFFF, 32)

  /** A trailer matches its data exactly when the register ends in the residue. */
  lemma ResidueIff(data: seq<Byte>, trailer: seq<Byte>)
    requires |trailer| == 4
    ensures trailer == Trailer(Checksum(data)) <==> Feed(INIT, data + trailer) == RESIDUE
  {
    hide Xor, CrcBits, Pack, Trailer, Feed;
    var r := Feed(INIT, data);
    FeedConcat(INIT, data, trailer);
    FeedIsOneWord(r, trailer);
    XorComplement(r, Pack(trailer));
    PackTrailer(Checksum(data));
    if Feed(INIT, data + trailer) == RESIDUE {
      CrcBitsInjective(Xor(r, Pack(trailer)), 0xFFFF_FFFF, 32);
      PackInjective(trailer, Trailer(Checksum(data)));
    }
  }
}
