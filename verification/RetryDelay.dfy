/** The publish worker's retry schedule, in the source's 64-bit durations. */
module RetryDelay {
  const LIMIT := 0x1_0000_0000_0000_0000
  const HALF := 0x8000_0000_0000_0000
  const QUARTER := 0x4000_0000_0000_0000

  /** What a 64-bit signed addition or doubling leaves of x. */
  function Wrap(x: int): (w: int)
    ensures -HALF <= w < HALF
    ensures -HALF <= x < HALF ==> w == x
  {
    (x + HALF) % LIMIT - HALF
  }

  function Pow2(n: nat): (p: nat)
    ensures p > 0
  {
    if n == 0 then 1 else 2 * Pow2(n - 1)
  }

  function Min(a: int, b: int): int { if a <= b then a else b }

  /** The delay that the doubling loop returns with n turns to go. */
  function Doubled(d: int, n: nat, max: int): int
    decreases n
  {
    if n == 0 then Min(d, max)
    else if d >= max then max
    else Doubled(Wrap(2 * d), n - 1, max)
  }

  /** Turns the loop makes: one for each failure past the first. */
  function Turns(failures: int): nat { if failures < 1 then 0 else failures - 1 }

  method NextRetryDelay(failures: int, base: int, max: int) returns (delay: int)
    ensures delay == Doubled(base, Turns(failures), max)
  {
    var n := failures;
    if n < 1 { n := 1; }
    var d, i := base, 1;
    while i < n
      invariant 1 <= i <= n && Doubled(base, Turns(failures), max) == Doubled(d, n - i, max)
    {
      if d >= max { return max; }
      d := Wrap(d * 2);
      i := i + 1;
    }
    if d > max { return max; }
    return d;
  }

  /** What the schedule promises: base doubled once per prior failure, capped at max. */
  function Promised(failures: int, base: int, max: int): int { Min(max, base * Pow2(Turns(failures))) }

  lemma {:induction false} DoublingIsExact(d: int, n: nat, max: int)
    requires 0 <= d < HALF && max <= QUARTER
    ensures Doubled(d, n, max) == Min(max, d * Pow2(n))
    decreases n
  {
    if n > 0 {
      assert d * Pow2(n) == 2 * d * Pow2(n - 1);
      if d < max {
        DoublingIsExact(2 * d, n - 1, max);
      } else {
        Grows(d, Pow2(n));
      }
    }
  }

  lemma {:induction false} Grows(d: int, p: nat)
    requires d >= 0 && p > 0
    ensures d * p >= d
  {}

  /** One doubling past the quarter turns the delay negative. */
  lemma {:induction false} DoublingOverflows(max: int)
    requires QUARTER < max < HALF
    ensures Doubled(QUARTER, Turns(2), max) == -HALF && Promised(2, QUARTER, max) == max
  {
    assert Wrap(2 * QUARTER) == -HALF;
    assert Doubled(-HALF, 0, max) == -HALF;
    assert Pow2(1) == 2 * Pow2(0) == 2;
  }

  /**
   * The loop keeps the schedule's promise for every failure count and every
   * base exactly when the cap is at most a quarter of the 64-bit range.
   */
  lemma {:induction false} ScheduleIsExactIff(max: int)
    requires -HALF <= max < HALF
    ensures max <= QUARTER <==>
      forall failures: int, base: int :: 0 <= base < HALF ==>
        Doubled(base, Turns(failures), max) == Promised(failures, base, max)
  {
    if max <= QUARTER {
      forall failures: int, base: int | 0 <= base < HALF
        ensures Doubled(base, Turns(failures), max) == Promised(failures, base, max)
      {
        DoublingIsExact(base, Turns(failures), max);
      }
    } else {
      DoublingOverflows(max);
      assert Doubled(QUARTER, Turns(2), max) != Promised(2, QUARTER, max);
    }
  }

  /** Under such a cap a longer streak never waits less, and never more than the cap. */
  lemma {:induction false} LongerStreakWaitsNoLess(failures: int, base: int, max: int)
    requires 0 <= base < HALF && max <= QUARTER
    ensures Doubled(base, Turns(failures), max) <= Doubled(base, Turns(failures + 1), max) <= max
  {
    DoublingIsExact(base, Turns(failures), max);
    DoublingIsExact(base, Turns(failures + 1), max);
    if failures >= 1 {
      assert base * Pow2(Turns(failures + 1)) == 2 * (base * Pow2(Turns(failures)));
    }
  }
}
