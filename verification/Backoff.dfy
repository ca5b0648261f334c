/** Lengths of time as Go's time.Duration holds them: signed 64-bit nanoseconds. */
module Durations {
  const MAX_INT64: int := 0x7fff_ffff_ffff_ffff
  const SECOND: int := 1_000_000_000
  const MINUTE: int := 60 * SECOND
  const HOUR: int := 60 * MINUTE

  type Duration = d: int | -MAX_INT64 - 1 <= d <= MAX_INT64
}

/** How restarts are spaced: internal/supervisor/supervisor.go, `Backoff`. */
module Backoff {
  import opened Durations

  datatype Policy = Policy(
    initial: Duration,
    max: Duration,
    factor: real,
    maxRestarts: int,
    resetAfter: Duration,
    maxRestartsPerWindow: int,
    window: Duration
  ) {
    /** Growth below 1 is treated as no growth. */
    function Growth(): (f: real)
      ensures f >= 1.0
    {
      if factor < 1.0 then 1.0 else factor
    }

    /** The wait before the given attempt, counting from 1. */
    function Delay(attempt: int): (d: Duration)
      ensures d >= 0
    {
      var n := if attempt < 1 then 1 else attempt;
      if initial <= 0 then 0 else
      var d := Grown(initial as real, Growth(), n - 1);
      assert d >= 0.0 by { GrownAtLeast(initial as real, Growth(), n - 1); }
      if max > 0 && d > max as real then max
      else if d > MAX_INT64 as real then MAX_INT64
      else d.Floor
    }

    /** The largest delay this policy can produce. */
    function Cap(): (c: Duration)
    {
      if max > 0 then max else MAX_INT64
    }
  }

  /** 5s, 10s, 20s, 40s, 80s, then stop; and never more than ten an hour. */
  const DEFAULT: Policy :=
    Policy(5 * SECOND, 80 * SECOND, 2.0, 5, MINUTE, 10, HOUR)

  /** x multiplied by f, n times over: what `math.Pow` is used for, over exact reals. */
  function Grown(x: real, f: real, n: nat): real {
    if n == 0 then x else f * Grown(x, f, n - 1)
  }

  /** Everything waited before attempts 1 to n of an uninterrupted streak. */
  function TotalDelay(p: Policy, n: nat): int {
    if n == 0 then 0 else TotalDelay(p, n - 1) + p.Delay(n)
  }

  lemma ProductAtLeast(a: real, b: real)
    requires a >= 1.0 && b >= 0.0
    ensures a * b >= b
  {
    assert (a - 1.0) * b >= 0.0;
  }

  lemma {:induction false} GrownAtLeast(x: real, f: real, n: nat)
    requires f >= 1.0 && x >= 0.0
    ensures Grown(x, f, n) >= x
  {
    if n > 0 {
      GrownAtLeast(x, f, n - 1);
      ProductAtLeast(f, Grown(x, f, n - 1));
    }
  }

  lemma {:induction false} GrownMonotone(x: real, f: real, m: nat, n: nat)
    requires f >= 1.0 && x >= 0.0 && m <= n
    ensures Grown(x, f, m) <= Grown(x, f, n)
    decreases n - m
  {
    if m < n {
      GrownMonotone(x, f, m, n - 1);
      GrownAtLeast(x, f, n - 1);
      ProductAtLeast(f, Grown(x, f, n - 1));
    }
  }

  /** The delay is the geometric schedule, capped and truncated: never negative, never above the cap. */
  lemma DelayIsCappedGeometric(p: Policy, n: int)
    requires n >= 1
    ensures 0 <= p.Delay(n) <= p.Cap()
    ensures p.initial <= 0 ==> p.Delay(n) == 0
    ensures var exact := Grown(p.initial as real, p.Growth(), n - 1);
            p.initial > 0 ==> p.Delay(n) == if exact <= p.Cap() as real then exact.Floor else p.Cap()
  {
    if p.initial > 0 { GrownAtLeast(p.initial as real, p.Growth(), n - 1); }
  }

  /** Waiting never gets shorter as a streak goes on, whatever the numbers in the policy. */
  lemma DelayIsMonotone(p: Policy, m: int, n: int)
    requires m <= n
    ensures 0 <= p.Delay(m) <= p.Delay(n)
  {
    if p.initial > 0 {
      var m', n' := if m < 1 then 1 else m, if n < 1 then 1 else n;
      DelayIsCappedGeometric(p, m');
      DelayIsCappedGeometric(p, n');
      GrownMonotone(p.initial as real, p.Growth(), m' - 1, n' - 1);
    }
  }

  /** The sum of the uncapped schedule over n attempts. */
  function GeometricSum(x: real, f: real, n: nat): real {
    if n == 0 then 0.0 else GeometricSum(x, f, n - 1) + Grown(x, f, n - 1)
  }

  /** Multiplied through by (f - 1), so that a factor of exactly 1 is covered too. */
  lemma {:induction false} GeometricSumClosedForm(x: real, f: real, n: nat)
    ensures (f - 1.0) * GeometricSum(x, f, n) == Grown(x, f, n) - x
  {
    if n > 0 {
      var before, here := GeometricSum(x, f, n - 1), Grown(x, f, n - 1);
      GeometricSumClosedForm(x, f, n - 1);
      assert (f - 1.0) * (before + here) == (f - 1.0) * before + (f - 1.0) * here;
    }
  }

  /** A streak of n restarts waits at most the geometric sum of the schedule. */
  lemma {:induction false} StreakWaitIsGeometricallyBounded(p: Policy, n: nat)
    requires p.initial > 0
    ensures 0 <= TotalDelay(p, n)
    ensures TotalDelay(p, n) as real <= GeometricSum(p.initial as real, p.Growth(), n)
  {
    if n > 0 {
      StreakWaitIsGeometricallyBounded(p, n - 1);
      DelayIsCappedGeometric(p, n);
    }
  }

  lemma DefaultDelays()
    ensures DEFAULT.Delay(1) == 5 * SECOND && DEFAULT.Delay(2) == 10 * SECOND && DEFAULT.Delay(3) == 20 * SECOND
    ensures DEFAULT.Delay(4) == 40 * SECOND && DEFAULT.Delay(5) == 80 * SECOND
  {
    var x := DEFAULT.initial as real;
    assert Grown(x, 2.0, 1) == 10_000_000_000.0;
    assert Grown(x, 2.0, 2) == 20_000_000_000.0;
    assert Grown(x, 2.0, 3) == 40_000_000_000.0;
    assert Grown(x, 2.0, 4) == 80_000_000_000.0;
  }

  /** The default schedule waits 155 seconds in all before its five restarts are used up. */
  lemma DefaultStreakWaits155Seconds()
    ensures TotalDelay(DEFAULT, DEFAULT.maxRestarts) == 155 * SECOND
    ensures TotalDelay(DEFAULT, 1) == 5 * SECOND && TotalDelay(DEFAULT, 2) == 15 * SECOND
    ensures TotalDelay(DEFAULT, 3) == 35 * SECOND && TotalDelay(DEFAULT, 4) == 75 * SECOND
  {
    DefaultDelays();
    assert TotalDelay(DEFAULT, 1) == 5 * SECOND;
    assert TotalDelay(DEFAULT, 2) == 15 * SECOND;
    assert TotalDelay(DEFAULT, 3) == 35 * SECOND;
    assert TotalDelay(DEFAULT, 4) == 75 * SECOND;
  }
}
