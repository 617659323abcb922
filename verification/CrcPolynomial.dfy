/**
 The checksum as a remainder of polynomials over GF(2), clause 3.2.9 of IEEE 802.3.

 A polynomial is the list of its coefficients, highest power first; the first transmitted bit of a
 message is its highest coefficient, and octets are transmitted low bit first. The standard
 complements the first 32 bits, appends 32 zero bits, divides by G(x) and complements the remainder.
 */
module CrcPolynomial {
  import opened Bytes
  import opened Crc32

  type Poly = seq<bool>

  /** The powers of x in G(x). */
  predicate InGenerator(power: int) {
    power in {32, 26, 23, 22, 16, 12, 11, 10, 8, 7, 5, 4, 2, 1, 0}
  }

  function G(): (p: Poly)
    ensures |p| == 33
  {
    seq(33, i => InGenerator(32 - i))
  }

  function Zeros(n: nat): (p: Poly)
    ensures |p| == n
  {
    seq(n, _ => false)
  }

  function Ones(n: nat): Poly {
    seq(n, _ => true)
  }

  function Plus(a: Poly, b: Poly): (p: Poly)
    requires |a| == |b|
    ensures |p| == |a|
  {
    seq(|a|, i requires 0 <= i < |a| => a[i] != b[i])
  }

  /** The multiple of G that the coefficient `b` at place `n` adds. */
  function Shifted(n: nat, b: bool): (p: Poly)
    ensures |p| == n + 33
  {
    Zeros(n) + if b then G() else Zeros(33)
  }

  /** The product q * G. */
  function TimesG(q: Poly): (p: Poly)
    ensures |p| == |q| + 32
  {
    if q == [] then Zeros(32)
    else Plus(TimesG(q[..|q| - 1]) + [false], Shifted(|q| - 1, q[|q| - 1]))
  }

  /** What the standard divides: the message shifted by 32 places with its first 32 bits flipped. */
  function Dividend(m: Poly): (p: Poly)
    ensures |p| == |m| + 32
  {
    Plus(m + Zeros(32), Ones(32) + Zeros(|m|))
  }

  /** p = q * G + r */
  ghost predicate Division(p: Poly, q: Poly, r: Poly) {
    |r| == 32 && |p| == |q| + 32 && p == Plus(TimesG(q), Zeros(|q|) + r)
  }

  /** `r` is the remainder of the division of `p` by G. */
  ghost predicate IsRemainder(p: Poly, r: Poly) {
    exists q: Poly :: Division(p, q, r)
  }

  /** Coefficient `i` of a register or octet, counted from its low bit. */
  function Coef(c: bv32, i: nat): bool
    decreases i
  {
    if i == 0 then Odd(c) else Coef(Half(c), i - 1)
  }

  function Register(c: bv32): (p: Poly)
    ensures |p| == 32
  {
    seq(32, i requires 0 <= i => Coef(c, i))
  }

  function OctetBits(b: Byte): Poly {
    seq(8, i requires 0 <= i => Coef(Wide(b), i))
  }

  function Message(data: seq<Byte>): (m: Poly)
    ensures |m| == 8 * |data|
  {
    if data == [] then [] else OctetBits(data[0]) + Message(data[1..])
  }

  // ----- Remainders are unique -----

  lemma {:induction false} TimesGStarts(q: Poly, j: nat)
    requires j < |q| && q[j] && forall i :: 0 <= i < j ==> !q[i]
    ensures TimesG(q)[j]
    decreases |q|
  {
    var h := q[..|q| - 1];
    if j < |q| - 1 {
      TimesGStarts(h, j);
    } else {
      TimesGVanishes(h);
    }
  }

  lemma {:induction false} TimesGVanishes(q: Poly)
    requires forall i :: 0 <= i < |q| ==> !q[i]
    ensures TimesG(q) == Zeros(|q| + 32)
    decreases |q|
  {
    if q != [] {
      TimesGVanishes(q[..|q| - 1]);
    }
  }

  lemma PlusSwaps(a: Poly, b: Poly, c: Poly, d: Poly)
    requires |a| == |b| == |c| == |d|
    ensures Plus(Plus(a, b), Plus(c, d)) == Plus(Plus(a, c), Plus(b, d))
  {
  }

  lemma PlusLonger(a: Poly, b: Poly)
    requires |a| == |b|
    ensures Plus(a, b) + [false] == Plus(a + [false], b + [false])
  {
  }

  lemma ShiftedAdds(n: nat, b: bool, c: bool)
    ensures Shifted(n, b != c) == Plus(Shifted(n, b), Shifted(n, c))
  {
    hide G;
  }

  lemma PlusFront(q: Poly, p: Poly, n: nat)
    requires |q| == |p| == n + 1
    ensures Plus(q, p)[..n] == Plus(q[..n], p[..n]) && Plus(q, p)[n] == (q[n] != p[n])
  {
  }

  lemma {:induction false} TimesGAdds(q: Poly, p: Poly)
    requires |q| == |p|
    ensures TimesG(Plus(q, p)) == Plus(TimesG(q), TimesG(p))
    decreases |q|
  {
    if q != [] {
      hide Plus, G, Zeros, Shifted;
      var n := |q| - 1;
      PlusFront(q, p, n);
      TimesGAdds(q[..n], p[..n]);
      PlusLonger(TimesG(q[..n]), TimesG(p[..n]));
      ShiftedAdds(n, q[n], p[n]);
      PlusSwaps(TimesG(q[..n]) + [false], TimesG(p[..n]) + [false], Shifted(n, q[n]), Shifted(n, p[n]));
    }
  }

  lemma DividedAt(p: Poly, q: Poly, r: Poly)
    requires Division(p, q, r)
    ensures |p| == |q| + 32 && |r| == 32
    ensures forall i :: 0 <= i < |q| ==> p[i] == TimesG(q)[i]
    ensures forall i :: 0 <= i < 32 ==> p[|q| + i] == (TimesG(q)[|q| + i] != r[i])
  {
    hide TimesG;
    var z := Zeros(|q|) + r;
    assert forall i :: 0 <= i < 32 ==> z[|q| + i] == r[i];
  }

  /** The only multiple of G of degree below 32 is zero. */
  lemma SmallMultipleIsZero(d: Poly)
    requires forall i :: 0 <= i < |d| ==> !TimesG(d)[i]
    ensures TimesG(d) == Zeros(|d| + 32)
  {
    hide TimesG;
    if exists j :: 0 <= j < |d| && d[j] {
      var k := FirstSet(d);
      TimesGStarts(d, k);
    } else {
      TimesGVanishes(d);
    }
  }

  /** Two divisions of one dividend have quotients that differ by such a multiple. */
  lemma DivisionUnique(p: Poly, q: Poly, r: Poly, q': Poly, s: Poly)
    requires Division(p, q, r) && Division(p, q', s)
    ensures r == s
  {
    hide TimesG, Plus, Zeros, Division;
    DividedAt(p, q, r);
    DividedAt(p, q', s);
    var n, t, t' := |q|, TimesG(q), TimesG(q');
    TimesGAdds(q, q');
    forall i | 0 <= i < n
      ensures !Plus(t, t')[i]
    {
      PlusAt(t, t', i);
    }
    SmallMultipleIsZero(Plus(q, q'));
    forall i | 0 <= i < 32
      ensures r[i] == s[i]
    {
      PlusAt(t, t', n + i);
      ZerosAt(n + 32, n + i);
    }
  }

  lemma PlusAt(a: Poly, b: Poly, i: nat)
    requires |a| == |b| && i < |a|
    ensures Plus(a, b)[i] == (a[i] != b[i])
  {
  }

  lemma ZerosAt(n: nat, i: nat)
    requires i < n
    ensures !Zeros(n)[i]
  {
  }

  lemma RemainderUnique(p: Poly, r: Poly, s: Poly)
    requires IsRemainder(p, r) && IsRemainder(p, s)
    ensures r == s
  {
    hide Division;
    var q: Poly :| Division(p, q, r);
    var q': Poly :| Division(p, q', s);
    DivisionUnique(p, q, r, q', s);
  }

  lemma FirstSet(d: Poly) returns (k: nat)
    requires exists j :: 0 <= j < |d| && d[j]
    ensures k < |d| && d[k] && forall i :: 0 <= i < k ==> !d[i]
  {
    k := 0;
    while !d[k]
      invariant k < |d|
      invariant forall i :: 0 <= i < k ==> !d[i]
      invariant exists j :: k <= j < |d| && d[j]
      decreases |d| - k
    {
      k := k + 1;
    }
  }

  // ----- One bit of the register is one step of long division -----

  function BitMask(b: bool): bv32 {
    if b then 1 else 0
  }

  function BitStep(c: bv32, b: bool): bv32 {
    CrcBit(Xor(c, BitMask(b)))
  }

  function BitFeed(c: bv32, m: Poly): bv32 {
    if m == [] then c else BitStep(BitFeed(c, m[..|m| - 1]), m[|m| - 1])
  }

  lemma {:induction false} CoefXor(a: bv32, b: bv32, i: nat)
    ensures Coef(Xor(a, b), i) == (Coef(a, i) != Coef(b, i))
    decreases i
  {
    hide Xor, Half, Odd;
    if i == 0 {
      OddXor(a, b);
    } else {
      HalfXor(a, b);
      CoefXor(Half(a), Half(b), i - 1);
    }
  }

  lemma HalfEight(c: bv32)
    ensures c >> 8 == Half(Half(Half(Half(Half(Half(Half(Half(c))))))))
  {
  }

  lemma CoefHalf(c: bv32, i: nat)
    ensures Coef(c, i + 1) == Coef(Half(c), i)
  {
    hide Odd, Half;
  }

  lemma CoefEight(c: bv32, i: nat)
    ensures Coef(c, i + 8) == Coef(c >> 8, i)
  {
    HalfEight(c);
    hide Odd, Half, Coef;
    var c1 := Half(c);
    var c2 := Half(c1);
    var c3 := Half(c2);
    var c4 := Half(c3);
    var c5 := Half(c4);
    var c6 := Half(c5);
    var c7 := Half(c6);
    CoefHalf(c, i + 7);
    CoefHalf(c1, i + 6);
    CoefHalf(c2, i + 5);
    CoefHalf(c3, i + 4);
    CoefHalf(c4, i + 3);
    CoefHalf(c5, i + 2);
    CoefHalf(c6, i + 1);
    CoefHalf(c7, i);
  }

  lemma ShiftedOut(c: bv32)
    ensures !Odd((((c >> 8) >> 8) >> 8) >> 8)
  {
  }

  lemma CoefBeyond(c: bv32)
    ensures !Coef(c, 32)
  {
    ShiftedOut(c);
    assert !Coef((((c >> 8) >> 8) >> 8) >> 8, 0);
    hide Coef, Odd, Half;
    CoefEight(c, 24);
    CoefEight(c >> 8, 16);
    CoefEight((c >> 8) >> 8, 8);
    CoefEight(((c >> 8) >> 8) >> 8, 0);
  }

  lemma HalvesOf(c: bv32)
    ensures Odd(c) == (c & 1 != 0) && Odd(Half(c)) == (c & 2 != 0)
    ensures Odd(Half(Half(c))) == (c & 4 != 0) && Odd(Half(Half(Half(c)))) == (c & 8 != 0)
  {
  }

  lemma CoefNibble(c: bv32, i: nat)
    requires i < 4
    ensures Coef(c, i) == if i == 0 then c & 1 != 0 else if i == 1 then c & 2 != 0
                          else if i == 2 then c & 4 != 0 else c & 8 != 0
  {
    HalvesOf(c);
    hide Odd, Half;
    if i == 1 {
      CoefHalf(c, 0);
    } else if i == 2 {
      CoefHalf(c, 1);
      CoefHalf(Half(c), 0);
    } else if i == 3 {
      CoefHalf(c, 2);
      CoefHalf(Half(c), 1);
      CoefHalf(Half(Half(c)), 0);
    }
  }

  lemma HalfFour(c: bv32)
    ensures c >> 4 == Half(Half(Half(Half(c))))
  {
  }

  lemma CoefFour(c: bv32, i: nat)
    ensures Coef(c, i + 4) == Coef(c >> 4, i)
  {
    HalfFour(c);
    hide Odd, Half, Coef;
    CoefHalf(c, i + 3);
    CoefHalf(Half(c), i + 2);
    CoefHalf(Half(Half(c)), i + 1);
    CoefHalf(Half(Half(Half(c))), i);
  }

  function DropOctets(c: bv32, n: nat): bv32 {
    if n == 0 then c else DropOctets(c >> 8, n - 1)
  }

  /** A coefficient is read in the low four bits of the right nibble. */
  lemma {:induction false} CoefInOctet(c: bv32, i: nat)
    ensures Coef(c, i) == Coef(DropOctets(c, i / 8), i % 8)
    decreases i
  {
    hide Coef;
    if i >= 8 {
      CoefEight(c, i - 8);
      CoefInOctet(c >> 8, i - 8);
    }
  }

  lemma CoefValue(c: bv32, k: nat)
    requires k < 8
    ensures Coef(c, k) == if k == 0 then c & 1 != 0 else if k == 1 then c & 2 != 0
                          else if k == 2 then c & 4 != 0 else if k == 3 then c & 8 != 0
                          else if k == 4 then (c >> 4) & 1 != 0 else if k == 5 then (c >> 4) & 2 != 0
                          else if k == 6 then (c >> 4) & 4 != 0 else (c >> 4) & 8 != 0
  {
    hide Coef;
    if k < 4 {
      CoefNibble(c, k);
    } else {
      CoefFour(c, k - 4);
      CoefNibble(c >> 4, k - 4);
    }
  }

  /** The constant of the code holds G(x) without its leading term, low powers on top. */
  lemma PolyIsGenerator(i: nat)
    requires i < 32
    ensures Coef(POLY, i) == InGenerator(31 - i)
  {
    hide Coef;
    CoefInOctet(POLY, i);
    CoefValue(DropOctets(POLY, i / 8), i % 8);
    assert DropOctets(POLY, 1) == 0xED_B883 && DropOctets(POLY, 2) == 0xEDB8 && DropOctets(POLY, 3) == 0xED;
  }

  /** Shifting the register and adding the polynomial is subtracting a multiple of G. */
  lemma RegisterStep(c: bv32)
    ensures [false] + Register(CrcBit(c))
         == Plus(Register(c) + [false], if Coef(c, 0) then G() else Zeros(33))
  {
    hide Odd, Half, Xor;
    forall i | 0 <= i < 32
      ensures Coef(CrcBit(c), i) == (Coef(c, i + 1) != (Coef(c, 0) && InGenerator(31 - i)))
    {
      CoefHalf(c, i);
      CoefXor(Half(c), POLY, i);
      PolyIsGenerator(i);
    }
    CoefBeyond(c);
    assert G()[0];
  }

  lemma CoefOfMask(b: bool, i: nat)
    ensures Coef(BitMask(b), i) == (b && i == 0)
  {
    if i == 0 {
    } else {
      CoefHalf(BitMask(b), i - 1);
      assert Half(BitMask(b)) == 0;
      CoefOfZero(i - 1);
    }
  }

  lemma {:induction false} CoefOfZero(i: nat)
    ensures !Coef(0, i)
    decreases i
  {
    if i > 0 {
      CoefHalf(0, i - 1);
      assert Half(0) == 0;
      CoefOfZero(i - 1);
    }
  }

  /** Long division, one message bit at a time: the register is the running remainder. */
  lemma {:induction false} BitFeedDivides(m: Poly)
    ensures IsRemainder(Dividend(m), Register(BitFeed(INIT, m)))
    decreases |m|
  {
    hide BitStep, Register, Dividend, IsRemainder;
    if m == [] {
      DividendOfNothing();
    } else {
      var h, b := m[..|m| - 1], m[|m| - 1];
      BitFeedDivides(h);
      assert BitFeed(INIT, m) == BitStep(BitFeed(INIT, h), b);
      assert m == h + [b];
      DivideOnce(h, b, BitFeed(INIT, h));
    }
  }

  lemma TimesGStep(q: Poly, b: bool)
    ensures TimesG(q + [b]) == Plus(TimesG(q) + [false], Zeros(|q|) + if b then G() else Zeros(33))
  {
    hide Plus, G, Zeros;
    var q' := q + [b];
    assert q'[..|q'| - 1] == q && q'[|q'| - 1] == b;
  }

  lemma DivideOnce(h: Poly, b: bool, c: bv32)
    requires IsRemainder(Dividend(h), Register(c))
    ensures IsRemainder(Dividend(h + [b]), Register(BitStep(c, b)))
  {
    hide CrcBit, Xor, BitMask, Coef, Plus, Register, G, Dividend, Zeros, TimesG;
    var n := |h|;
    var q: Poly :| Division(Dividend(h), q, Register(c));
    var x := Xor(c, BitMask(b));
    var q' := q + [Coef(x, 0)];
    var g := if Coef(x, 0) then G() else Zeros(33);
    RegisterStep(x);
    RegisterXorMask(c, b);
    DividendStep(h, b);
    DivisionStep(n, TimesG(q), Register(c), Register(x), Register(CrcBit(x)), g, b);
    TimesGStep(q, Coef(x, 0));
    assert Division(Dividend(h + [b]), q', Register(CrcBit(x)));
  }

  lemma DividendOfNothing()
    ensures IsRemainder(Dividend([]), Register(BitFeed(INIT, [])))
  {
    hide Coef;
    RegisterOfInit();
    assert Division(Dividend([]), [], Register(INIT));
  }

  lemma RegisterOfInit()
    ensures Register(INIT) == Ones(32)
  {
    forall i | 0 <= i < 32
      ensures Coef(INIT, i)
    {
      OnesAt(i);
    }
  }

  lemma OnesAt(i: nat)
    requires i < 32
    ensures Coef(INIT, i)
  {
    hide Coef;
    CoefInOctet(INIT, i);
    CoefValue(DropOctets(INIT, i / 8), i % 8);
    assert DropOctets(INIT, 1) == 0xFF_FFFF && DropOctets(INIT, 2) == 0xFFFF && DropOctets(INIT, 3) == 0xFF;
  }

  lemma RegisterXorMask(c: bv32, b: bool)
    ensures Register(Xor(c, BitMask(b))) == Plus(Register(c), [b] + Zeros(31))
  {
    hide Xor, BitMask, Coef;
    forall i | 0 <= i < 32
      ensures Coef(Xor(c, BitMask(b)), i) == (Coef(c, i) != (b && i == 0))
    {
      CoefXor(c, BitMask(b), i);
      CoefOfMask(b, i);
    }
  }

  lemma DividendStep(h: Poly, b: bool)
    ensures Dividend(h + [b]) == Plus(Dividend(h) + [false], Zeros(|h|) + [b] + Zeros(32))
  {
  }

  /** With t = q * G: adding the next bit to q * G + r leaves q' * G + r'. */
  lemma DivisionStep(n: nat, t: Poly, r: Poly, x: Poly, r': Poly, g: Poly, b: bool)
    requires |t| == n + 32 && |r| == |x| == |r'| == 32 && |g| == 33
    requires x == Plus(r, [b] + Zeros(31))
    requires [false] + r' == Plus(x + [false], g)
    ensures Plus(Plus(t, Zeros(n) + r) + [false], Zeros(n) + [b] + Zeros(32))
         == Plus(Plus(t + [false], Zeros(n) + g), Zeros(n + 1) + r')
  {
    var lhs := Plus(Plus(t, Zeros(n) + r) + [false], Zeros(n) + [b] + Zeros(32));
    var rhs := Plus(Plus(t + [false], Zeros(n) + g), Zeros(n + 1) + r');
    forall i | n <= i < n + 33
      ensures lhs[i] == rhs[i]
    {
      var k := i - n;
      assert ([false] + r')[k] == ((x + [false])[k] != g[k]);
      assert (Zeros(n) + g)[i] == g[k];
      assert (Zeros(n + 1) + r')[i] == ([false] + r')[k];
      assert (Zeros(n) + [b] + Zeros(32))[i] == ([b] + Zeros(32))[k];
    }
  }

  // ----- Octets enter bit by bit, low bit first -----

  function Top(v: bv32, k: nat): Poly
    decreases k
  {
    if k == 0 then [] else [Odd(v)] + Top(Half(v), k - 1)
  }

  /** Shifting `k` times with `v` added to the register feeds the low `k` bits of `v`. */
  lemma {:induction false} BitsAtOnce(c: bv32, v: bv32, k: nat, m: Poly)
    requires Fits(v, k)
    requires c == BitFeed(INIT, m)
    ensures CrcBits(Xor(c, v), k) == BitFeed(INIT, m + Top(v, k))
    decreases k
  {
    hide Xor, CrcBit, Half, Odd, BitMask;
    if k == 0 {
      XorZero(c);
      assert m + Top(v, 0) == m;
    } else {
      var b := Odd(v);
      var c' := BitStep(c, b);
      assert (m + [b])[..|m|] == m;
      assert c' == BitFeed(INIT, m + [b]);
      BitsAtOnce(c', Half(v), k - 1, m + [b]);
      assert m + Top(v, k) == (m + [b]) + Top(Half(v), k - 1);
      SplitLowBit(c, v);
    }
  }

  predicate Fits(v: bv32, k: nat)
    decreases k
  {
    if k == 0 then v == 0 else Fits(Half(v), k - 1)
  }

  lemma LowAndRest(v: bv32)
    ensures v == Xor(BitMask(Odd(v)), Half(v) << 1)
    ensures Half(v) <= 0x7FFF_FFFF
  {
  }

  lemma SplitLowBit(c: bv32, v: bv32)
    ensures CrcBit(Xor(c, v)) == Xor(BitStep(c, Odd(v)), Half(v))
  {
    hide Xor, CrcBit, Half, Odd, BitMask;
    var low, rest := BitMask(Odd(v)), Double(Half(v));
    assert v == Xor(low, rest) && Half(v) <= 0x7FFF_FFFF by {
      LowAndRest(v);
    }
    XorAssociates(c, low, rest);
    CrcBitLinear(Xor(c, low), rest);
    CrcBitOfDouble(Half(v));
  }

  lemma {:induction false} TopIsCoef(v: bv32, k: nat)
    ensures Top(v, k) == seq(k, i requires 0 <= i => Coef(v, i))
    decreases k
  {
    hide Odd, Half;
    if k > 0 {
      TopIsCoef(Half(v), k - 1);
    }
  }

  lemma OctetBitsAreTop(b: Byte)
    ensures Top(Wide(b), 8) == OctetBits(b)
  {
    hide Top, Coef, Wide;
    TopIsCoef(Wide(b), 8);
  }

  lemma OctetFits(b: Byte)
    ensures Fits(Wide(b), 8)
  {
    var v := Wide(b);
    HalfEight(v);
    assert v >> 8 == 0;
    hide Half, Wide;
    assert Fits(v, 8) == Fits(Half(Half(Half(Half(v)))), 4);
  }

  lemma {:induction false} FeedIsBitFeed(data: seq<Byte>, m: Poly)
    ensures Feed(BitFeed(INIT, m), data) == BitFeed(INIT, m + Message(data))
    decreases |data|
  {
    hide CrcByte, BitStep, CrcBits, Coef, Wide, Xor, BitFeed, OctetBits, Top, Fits;
    if data == [] {
      assert m + Message(data) == m;
    } else {
      var c, v := BitFeed(INIT, m), Wide(data[0]);
      UnfoldCrcByte(c, data[0]);
      OctetFits(data[0]);
      BitsAtOnce(c, v, 8, m);
      OctetBitsAreTop(data[0]);
      FeedIsBitFeed(data[1..], m + OctetBits(data[0]));
      assert m + Message(data) == (m + OctetBits(data[0])) + Message(data[1..]);
    }
  }

  /** `crc32` is the complemented remainder the standard defines, for every octet string. */
  lemma ChecksumIsRemainder(data: seq<Byte>)
    ensures IsRemainder(Dividend(Message(data)), Plus(Register(Checksum(data)), Ones(32)))
  {
    hide Coef, Xor, BitFeed, Feed;
    var c := Feed(INIT, data);
    assert [] + Message(data) == Message(data);
    assert BitFeed(INIT, []) == INIT by {
      BitFeedEmpty();
    }
    FeedIsBitFeed(data, []);
    BitFeedDivides(Message(data));
    forall i | 0 <= i < 32
      ensures Coef(Xor(c, INIT), i) == (Coef(c, i) != true)
    {
      CoefXor(c, INIT, i);
      OnesAt(i);
    }
    assert Plus(Register(Checksum(data)), Ones(32)) == Register(c);
  }

  lemma BitFeedEmpty()
    ensures BitFeed(INIT, []) == INIT
  {
  }

  // ----- Bursts -----

  lemma {:induction false} TimesGEnds(q: Poly, j: nat)
    requires j < |q| && q[j] && forall i :: j < i < |q| ==> !q[i]
    ensures TimesG(q)[j + 32]
    decreases |q|
  {
    var n := |q| - 1;
    if j < n {
      TimesGEnds(q[..n], j);
    } else {
      assert G()[32] && (Zeros(n) + G())[n + 32] == G()[32];
    }
  }

  lemma LastSet(d: Poly) returns (k: nat)
    requires exists j :: 0 <= j < |d| && d[j]
    ensures k < |d| && d[k] && forall i :: k < i < |d| ==> !d[i]
  {
    k := |d| - 1;
    while !d[k]
      invariant k < |d|
      invariant forall i :: k < i < |d| ==> !d[i]
      invariant exists j :: 0 <= j <= k && d[j]
      decreases k
    {
      k := k - 1;
    }
  }

  /** A multiple of G that is not zero spans more than 32 places. */
  lemma MultiplesAreLong(d: Poly, from: nat)
    requires forall i :: 0 <= i < |d| + 32 && TimesG(d)[i] ==> from <= i < from + 32
    ensures TimesG(d) == Zeros(|d| + 32)
  {
    hide TimesG;
    if exists j :: 0 <= j < |d| && d[j] {
      var first := FirstSet(d);
      var last := LastSet(d);
      TimesGStarts(d, first);
      TimesGEnds(d, last);
      assert false;
    } else {
      TimesGVanishes(d);
    }
  }

  /** The places where two polynomials differ lie within 32 neighbouring ones. */
  predicate DifferWithin(a: Poly, b: Poly, from: nat) {
    |a| == |b| && forall i :: 0 <= i < |a| && a[i] != b[i] ==> from <= i < from + 32
  }

  /** Messages with one remainder differ by a multiple of G. */
  lemma SameRemainder(a: Poly, b: Poly, r: Poly, from: nat)
    requires IsRemainder(Dividend(a), r) && IsRemainder(Dividend(b), r) && DifferWithin(a, b, from)
    ensures a == b
  {
    hide TimesG, Plus, Division, IsRemainder, Dividend;
    var q := Quotient(Dividend(a), r);
    var q' := Quotient(Dividend(b), r);
    DividedAt(Dividend(a), q, r);
    DividedAt(Dividend(b), q', r);
    TimesGAdds(q, q');
    var n, t, t' := |a|, TimesG(q), TimesG(q');
    forall i | 0 <= i < n + 32
      ensures Plus(t, t')[i] == (i < n && a[i] != b[i])
    {
      PlusAt(t, t', i);
      DividendsDiffer(a, b, i);
      if i >= n {
        var k := i - n;
        assert Dividend(a)[n + k] == (t[n + k] != r[k]) && Dividend(b)[n + k] == (t'[n + k] != r[k]);
      }
    }
    MultiplesAreLong(Plus(q, q'), from);
    forall i | 0 <= i < n
      ensures a[i] == b[i]
    {
      ZerosAt(n + 32, i);
    }
  }

  lemma Quotient(p: Poly, r: Poly) returns (q: Poly)
    requires IsRemainder(p, r)
    ensures Division(p, q, r)
  {
    hide Division;
    q :| Division(p, q, r);
  }

  lemma DividendsDiffer(a: Poly, b: Poly, i: nat)
    requires |a| == |b| && i < |a| + 32
    ensures (Dividend(a)[i] != Dividend(b)[i]) == (i < |a| && a[i] != b[i])
  {
  }

  /** Two strings with the same residue whose bits differ only within a burst of 32 are equal. */
  lemma BurstDetected(s: seq<Byte>, t: seq<Byte>, from: nat)
    requires |s| == |t| && Feed(INIT, s) == Feed(INIT, t) && DifferWithin(Message(s), Message(t), from)
    ensures s == t
  {
    hide BitFeed, Feed, Message, IsRemainder, Register, DifferWithin;
    BitFeedEmpty();
    FeedIsBitFeed(s, []);
    FeedIsBitFeed(t, []);
    assert [] + Message(s) == Message(s) && [] + Message(t) == Message(t);
    BitFeedDivides(Message(s));
    BitFeedDivides(Message(t));
    SameRemainder(Message(s), Message(t), Register(Feed(INIT, s)), from);
    MessageInjective(s, t);
  }

  lemma {:induction false} MessageConcat(s: seq<Byte>, t: seq<Byte>)
    ensures Message(s + t) == Message(s) + Message(t)
    decreases |s|
  {
    hide OctetBits;
    if s == [] {
      assert s + t == t;
    } else {
      assert (s + t)[1..] == s[1..] + t;
      MessageConcat(s[1..], t);
    }
  }

  lemma {:induction false} MessageInjective(s: seq<Byte>, t: seq<Byte>)
    requires |s| == |t| && Message(s) == Message(t)
    ensures s == t
    decreases |s|
  {
    hide OctetBits;
    if s != [] {
      var a, b := OctetBits(s[0]), OctetBits(t[0]);
      OctetBitsLength(s[0]);
      OctetBitsLength(t[0]);
      assert Message(s)[..8] == a && Message(s)[8..] == Message(s[1..]);
      assert Message(t)[..8] == b && Message(t)[8..] == Message(t[1..]);
      OctetBitsInjective(s[0], t[0]);
      MessageInjective(s[1..], t[1..]);
      assert s == [s[0]] + s[1..] && t == [t[0]] + t[1..];
    }
  }

  lemma OctetBitsLength(b: Byte)
    ensures |OctetBits(b)| == 8
  {
  }

  lemma OctetBitsInjective(a: Byte, b: Byte)
    requires OctetBits(a) == OctetBits(b)
    ensures a == b
  {
    forall k | 0 <= k < 8
      ensures Coef(Wide(a), k) == Coef(Wide(b), k)
    {
      assert OctetBits(a)[k] == OctetBits(b)[k];
    }
    hide Coef, Wide;
    var v, w := Wide(a), Wide(b);
    BitsOf(v);
    BitsOf(w);
    assert Coef(v, 0) == Coef(w, 0) && Coef(v, 1) == Coef(w, 1) && Coef(v, 2) == Coef(w, 2) && Coef(v, 3) == Coef(w, 3);
    assert Coef(v, 4) == Coef(w, 4) && Coef(v, 5) == Coef(w, 5) && Coef(v, 6) == Coef(w, 6) && Coef(v, 7) == Coef(w, 7);
    SameBits(v, w);
    WideInjective(a, b);
  }

  predicate SameNibble(v: bv32, w: bv32) {
    && (v & 1 != 0) == (w & 1 != 0) && (v & 2 != 0) == (w & 2 != 0)
    && (v & 4 != 0) == (w & 4 != 0) && (v & 8 != 0) == (w & 8 != 0)
  }

  lemma BitsOf(c: bv32)
    ensures Coef(c, 0) == (c & 1 != 0) && Coef(c, 1) == (c & 2 != 0)
    ensures Coef(c, 2) == (c & 4 != 0) && Coef(c, 3) == (c & 8 != 0)
    ensures Coef(c, 4) == ((c >> 4) & 1 != 0) && Coef(c, 5) == ((c >> 4) & 2 != 0)
    ensures Coef(c, 6) == ((c >> 4) & 4 != 0) && Coef(c, 7) == ((c >> 4) & 8 != 0)
  {
    hide Coef;
    CoefValue(c, 0);
    CoefValue(c, 1);
    CoefValue(c, 2);
    CoefValue(c, 3);
    CoefValue(c, 4);
    CoefValue(c, 5);
    CoefValue(c, 6);
    CoefValue(c, 7);
  }

  lemma SameBits(v: bv32, w: bv32)
    requires SameNibble(v, w) && SameNibble(v >> 4, w >> 4)
    ensures v & 0xFF == w & 0xFF
  {
  }

  lemma WideInjective(a: Byte, b: Byte)
    requires Wide(a) & 0xFF == Wide(b) & 0xFF
    ensures a == b
  {
  }
}
