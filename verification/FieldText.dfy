/** Text of '|'-separated fields: printing and scanning unsigned decimals and moving a cursor from field to field. */
module FieldText {
  import opened Wrappers
  import opened Clock32

  const PIPE := '|'

  /** A cursor is the rest of the text it points into. */
  type Cursor = string

  predicate IsDigit(c: char) {
    '0' <= c <= '9'
  }

  function DigitChar(d: nat): (c: char)
    requires d < 10
    ensures IsDigit(c)
  {
    (d + 48) as char
  }

  function DigitValue(c: char): (d: nat)
    requires IsDigit(c)
    ensures d < 10
  {
    c as nat - 48
  }

  /** "%u" of printf */
  function Digits(n: nat): (s: string)
    ensures |s| > 0
  {
    if n < 10 then [DigitChar(n)] else Digits(n / 10) + [DigitChar(n % 10)]
  }

  /** The value of a run of digits. */
  function Number(s: string): nat
    requires forall c :: c in s ==> IsDigit(c)
  {
    if s == "" then 0 else 10 * Number(s[..|s| - 1]) + DigitValue(s[|s| - 1])
  }

  /** The longest run of digits at the cursor. */
  function DigitRun(s: Cursor): (r: string)
    ensures forall c :: c in r ==> IsDigit(c)
  {
    if s == "" || !IsDigit(s[0]) then "" else [s[0]] + DigitRun(s[1..])
  }

  /** "%u" of sscanf at the cursor; 32 bits are kept. */
  function ReadUint(s: Cursor): (r: Option<nat>)
    ensures r.Some? ==> r.value < TWO32
  {
    if DigitRun(s) == "" then None else Some(Number(DigitRun(s)) % TWO32)
  }

  /** Behind the digits. */
  function AfterDigits(s: Cursor): Cursor {
    if s == "" || !IsDigit(s[0]) then s else AfterDigits(s[1..])
  }

  /** At the next separator or the end. */
  function SkipField(s: Cursor): (r: Cursor)
    ensures r == "" || r[0] == PIPE
    ensures |r| <= |s|
  {
    if s == "" || s[0] == PIPE then s else SkipField(s[1..])
  }

  /** Behind a separator, if the cursor is at one. */
  function StepOver(s: Cursor): (r: Cursor)
    ensures |r| <= |s|
  {
    if s != "" && s[0] == PIPE then s[1..] else s
  }

  /** Behind the `n`-th separator from here, or at the end. */
  function AfterPipes(s: Cursor, n: nat): Cursor
    decreases |s|
  {
    if s == "" || n == 0 then s else AfterPipes(s[1..], if s[0] == PIPE then n - 1 else n)
  }

  predicate NoPipe(s: string) {
    PIPE !in s
  }

  predicate AllDigits(s: string) {
    forall c :: c in s ==> IsDigit(c)
  }

  /** A field ends here. */
  predicate AtEnd(s: Cursor) {
    s == "" || s[0] == PIPE
  }

  // ----- Printing and scanning are inverse -----

  lemma {:induction false} DigitsAreDigits(n: nat)
    ensures AllDigits(Digits(n))
  {
    if n >= 10 {
      DigitsAreDigits(n / 10);
    }
  }

  lemma DigitsNoPipe(n: nat)
    ensures NoPipe(Digits(n))
  {
    DigitsAreDigits(n);
  }

  lemma {:induction false} NumberOfDigits(n: nat)
    ensures AllDigits(Digits(n)) && Number(Digits(n)) == n
  {
    DigitsAreDigits(n);
    if n >= 10 {
      NumberOfDigits(n / 10);
      var s := Digits(n);
      assert s[..|s| - 1] == Digits(n / 10);
    } else {
      assert Digits(n)[..0] == "";
    }
  }

  lemma {:induction false} RunOfDigits(ds: string, rest: Cursor)
    requires AllDigits(ds) && (rest == "" || !IsDigit(rest[0]))
    ensures DigitRun(ds + rest) == ds && AfterDigits(ds + rest) == rest
  {
    if ds == "" {
      assert ds + rest == rest;
    } else {
      assert (ds + rest)[1..] == ds[1..] + rest;
      RunOfDigits(ds[1..], rest);
    }
  }

  /** A printed number reads back, whatever field follows. */
  lemma UintRoundTrip(n: nat, rest: Cursor)
    requires n < TWO32 && AtEnd(rest)
    ensures ReadUint(Digits(n) + rest) == Some(n) && AfterDigits(Digits(n) + rest) == rest
  {
    DigitsAreDigits(n);
    NumberOfDigits(n);
    RunOfDigits(Digits(n), rest);
  }

  lemma {:induction false} SkipOverField(f: string, rest: Cursor)
    requires NoPipe(f) && AtEnd(rest)
    ensures SkipField(f + rest) == rest
  {
    if f == "" {
      assert f + rest == rest;
    } else {
      assert (f + rest)[1..] == f[1..] + rest && f[0] in f;
      SkipOverField(f[1..], rest);
    }
  }

  lemma {:induction false} PipesBehindField(f: string, rest: Cursor, n: nat)
    requires NoPipe(f)
    ensures AfterPipes(f + rest, n) == if n == 0 then f + rest else AfterPipes(rest, n)
    decreases |f|
  {
    if n > 0 {
      if f == "" {
        assert f + rest == rest;
      } else {
        assert (f + rest)[1..] == f[1..] + rest && f[0] in f;
        PipesBehindField(f[1..], rest, n);
      }
    }
  }

  function Power10(k: nat): nat {
    if k == 0 then 1 else 10 * Power10(k - 1)
  }

  lemma {:induction false} DigitsLength(n: nat, k: nat)
    requires n < Power10(k) && k > 0
    ensures |Digits(n)| <= k
  {
    if n >= 10 {
      DigitsLength(n / 10, k - 1);
    }
  }

  /** A 32-bit number has at most ten digits. */
  lemma WordLength(n: nat)
    requires n < TWO32
    ensures |Digits(n)| <= 10
  {
    assert Power10(5) == 100000;
    assert Power10(10) == 10000000000;
    DigitsLength(n, 10);
  }

  // ----- The loops of the scanner -----

  method SkipToPipe(s: Cursor) returns (r: Cursor)
    ensures r == SkipField(s)
  {
    r := s;
    while r != "" && r[0] != PIPE
      invariant SkipField(r) == SkipField(s)
      decreases |r|
    {
      r := r[1..];
    }
  }

  method SkipPipes(s: Cursor, n: nat) returns (r: Cursor)
    ensures r == AfterPipes(s, n)
  {
    r := s;
    var pipes := 0;
    while r != "" && pipes < n
      invariant pipes <= n && AfterPipes(r, n - pipes) == AfterPipes(s, n)
      decreases |r|
    {
      if r[0] == PIPE { pipes := pipes + 1; }
      r := r[1..];
    }
  }
}
