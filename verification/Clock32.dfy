/**
 The 32-bit millisecond clock. True time is a whole number of milliseconds, below zero before the clock
 started; the code sees it modulo 2^32.
 */
module Clock32 {
  const TWO32 := 0x1_0000_0000

  /** What millis() returns at true time `t`. */
  function Millis(t: int): (now: nat)
    ensures now < TWO32
  {
    t % TWO32
  }

  /** Unsigned 32-bit subtraction. */
  function Since(now: nat, then_: nat): (d: nat)
    requires now < TWO32 && then_ < TWO32
    ensures d < TWO32
  {
    if now >= then_ then now - then_ else now + TWO32 - then_
  }

  /** 32-bit elapsed time is the true elapsed time modulo 2^32, so it never exceeds it. */
  lemma ClockUnderstates(now: int, then_: int)
    requires then_ <= now
    ensures Since(Millis(now), Millis(then_)) == Millis(now - then_) <= now - then_
  {
  }
}
