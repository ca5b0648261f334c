/** How many restarts one window can see, failed launches included. */
module RestartCeiling {
  import opened Options
  import opened RunHistory
  import opened RunTheorems

  /** Retries of the first n rounds, at the instant of each failure, in the half-open span (lo, hi]. */
  function Retries(cfg: Config, h: seq<Round>, n: nat, lo: int, hi: int): nat
    requires n <= |h|
  {
    if n == 0 then 0
    else Retries(cfg, h, n - 1, lo, hi) + if Failure(cfg, h[n - 1]) && lo < Ends(h[n - 1]) <= hi then 1 else 0
  }

  function FailedLaunches(h: seq<Round>, n: nat, lo: int, hi: int): nat
    requires n <= |h|
  {
    if n == 0 then 0
    else FailedLaunches(h, n - 1, lo, hi) + if h[n - 1].LaunchFails? && lo < Ends(h[n - 1]) <= hi then 1 else 0
  }

  /** Retries, and launches that failed, in the window that ends at t. */
  function RetriesAt(cfg: Config, h: seq<Round>, n: nat, t: int): nat
    requires n <= |h|
  {
    Retries(cfg, h, n, t - cfg.backoff.window, t)
  }

  function FailedLaunchesAt(cfg: Config, h: seq<Round>, n: nat, t: int): nat
    requires n <= |h|
  {
    FailedLaunches(h, n, t - cfg.backoff.window, t)
  }

  lemma {:induction false} RetriesAreExitsAndFailedLaunches(cfg: Config, h: seq<Round>, n: nat, lo: int, hi: int)
    requires n <= |h|
    ensures Retries(cfg, h, n, lo, hi) == Charged(cfg, h, 0, n, lo, hi) + FailedLaunches(h, n, lo, hi)
  {
    if n > 0 { RetriesAreExitsAndFailedLaunches(cfg, h, n - 1, lo, hi); }
  }

  // The bound

  /** Whole forgiving uptimes that fit strictly inside one window. */
  function Uptimes(cfg: Config): nat
    requires Budgeted(cfg)
  {
    if cfg.backoff.resetAfter > 0 then (cfg.backoff.window - 1) / cfg.backoff.resetAfter else 0
  }

  /** The most restarts any one window can see: a streak, and one more for every forgiveness it has room for. */
  function Most(cfg: Config): nat
    requires Budgeted(cfg) && cfg.backoff.maxRestarts > 0
  {
    cfg.backoff.maxRestarts * (1 + Least(cfg.backoff.maxRestartsPerWindow, Uptimes(cfg)))
  }

  /** Forgiving exits in the span that are not its first failure. */
  function Chained(cfg: Config, h: seq<Round>, n: nat, lo: int, hi: int): nat
    requires n <= |h|
  {
    if n == 0 then 0
    else
      Chained(cfg, h, n - 1, lo, hi) +
      if Forgives(cfg, h[n - 1]) && lo < Ends(h[n - 1]) <= hi && Retries(cfg, h, n - 1, lo, hi) > 0 then 1 else 0
  }

  lemma {:induction false} ChainedAreCharged(cfg: Config, h: seq<Round>, n: nat, lo: int, hi: int)
    requires n <= |h|
    ensures Chained(cfg, h, n, lo, hi) <= Charged(cfg, h, 0, n, lo, hi) <= Retries(cfg, h, n, lo, hi)
  {
    if n > 0 { ChainedAreCharged(cfg, h, n - 1, lo, hi); }
  }

  lemma {:induction false} NothingBeforeTheSpan(cfg: Config, h: seq<Round>, n: nat, lo: int, hi: int)
    requires n <= |h| && NoneAfter(h, n, lo)
    ensures Retries(cfg, h, n, lo, hi) == 0 && Chained(cfg, h, n, lo, hi) == 0
  {
    if n > 0 { NothingBeforeTheSpan(cfg, h, n - 1, lo, hi); }
  }

  /** Each forgiving exit but the first failure buys at most another streak. */
  lemma {:induction false} RetriesPerForgiveness(cfg: Config, h: seq<Round>, n: nat, lo: int, hi: int)
    requires n <= |h| && Clocked(h) && Survives(cfg, h, n) && NoneAfter(h, n, hi) && cfg.backoff.maxRestarts > 0
    ensures Retries(cfg, h, n, lo, hi) <= Times(cfg.backoff.maxRestarts, Chained(cfg, h, n, lo, hi)) + Streak(cfg, h, n)
  {
    if n > 0 {
      RetriesPerForgiveness(cfg, h, n - 1, lo, hi);
      StreakWithinLimit(cfg, h, n - 1);
      StreakStep(cfg, h, n);
      if Ends(h[n - 1]) <= lo {
        ClockedMeansNoneAfter(h, n);
        NothingBeforeTheSpan(cfg, h, n, lo, hi);
      }
    }
  }

  /** And each costs a whole uptime after the first failure. */
  lemma {:induction false} ForgivenessTakesTime(cfg: Config, h: seq<Round>, n: nat, lo: int, hi: int)
    requires n <= |h| && Clocked(h) && cfg.backoff.resetAfter > 0 && Retries(cfg, h, n, lo, hi) > 0
    ensures n > 0 && lo + 1 + Times(cfg.backoff.resetAfter, Chained(cfg, h, n, lo, hi)) <= Ends(h[n - 1])
  {
    if Retries(cfg, h, n - 1, lo, hi) > 0 {
      ForgivenessTakesTime(cfg, h, n - 1, lo, hi);
      assert Ends(h[n - 2]) <= Begins(h[n - 1]) <= Ends(h[n - 1]);
    } else {
      ChainedAreCharged(cfg, h, n - 1, lo, hi);
    }
  }

  lemma {:induction false} NothingIsForgiven(cfg: Config, h: seq<Round>, n: nat, lo: int, hi: int)
    requires n <= |h| && cfg.backoff.resetAfter <= 0
    ensures Chained(cfg, h, n, lo, hi) == 0
  {
    if n > 0 { NothingIsForgiven(cfg, h, n - 1, lo, hi); }
  }

  lemma QuotientIsWhole(r: nat, w: nat)
    requires r > 0
    ensures Times(r, w / r) <= w < Times(r, w / r) + r
  {
    TimesIsProduct(r, w / r);
    assert w == r * (w / r) + w % r;
  }

  lemma WholeTimes(x: nat, r: nat, w: nat)
    requires r > 0
    ensures Times(r, x) <= w <==> x <= w / r
  {
    var q := w / r;
    QuotientIsWhole(r, w);
    if x <= q { TimesMonotone(r, x, q); } else { TimesMonotone(r, q + 1, x); }
  }

  lemma ChainedWithinUptimes(cfg: Config, h: seq<Round>, n: nat, t: int)
    requires n <= |h| && Clocked(h) && NoneAfter(h, n, t) && Budgeted(cfg)
    ensures Chained(cfg, h, n, t - cfg.backoff.window, t) <= Uptimes(cfg)
  {
    var lo := t - cfg.backoff.window;
    var chained := Chained(cfg, h, n, lo, t);
    if cfg.backoff.resetAfter <= 0 {
      NothingIsForgiven(cfg, h, n, lo, t);
    } else if Retries(cfg, h, n, lo, t) > 0 {
      ForgivenessTakesTime(cfg, h, n, lo, t);
      WholeTimes(chained, cfg.backoff.resetAfter, cfg.backoff.window - 1);
    } else {
      ChainedAreCharged(cfg, h, n, lo, t);
    }
  }

  /**
   * Failed launches are not charged to the window, yet the two limits together
   * bound every retry: at no instant of any run has the window that ends there
   * seen more than `Most` of them.
   */
  lemma {:induction false} RetriesInAnyWindow(cfg: Config, h: seq<Round>, n: nat, t: int)
    requires n <= |h| && Clocked(h) && Survives(cfg, h, n) && Budgeted(cfg) && cfg.backoff.maxRestarts > 0
    ensures RetriesAt(cfg, h, n, t) <= Most(cfg)
    ensures Most(cfg) <= cfg.backoff.maxRestarts * (cfg.backoff.maxRestartsPerWindow + 1)
  {
    var m, lo := cfg.backoff.maxRestarts, t - cfg.backoff.window;
    var room := Least(cfg.backoff.maxRestartsPerWindow, Uptimes(cfg));
    TimesIsProduct(m, 1 + room);
    TimesIsProduct(m, cfg.backoff.maxRestartsPerWindow + 1);
    TimesMonotone(m, 1 + room, cfg.backoff.maxRestartsPerWindow + 1);
    if n > 0 && Ends(h[n - 1]) > t {
      RetriesInAnyWindow(cfg, h, n - 1, t);
    } else {
      if n > 0 { ClockedMeansNoneAfter(h, n); }
      RetriesPerForgiveness(cfg, h, n, lo, t);
      StreakWithinLimit(cfg, h, n);
      ChainedWithinUptimes(cfg, h, n, t);
      ChainedAreCharged(cfg, h, n, lo, t);
      BudgetHoldsAtEveryInstant(cfg, h, n, t);
      TimesMonotone(m, Chained(cfg, h, n, lo, t), room);
    }
  }

  // What is asked of every window, over the runs that wait out every backoff

  /** After each failure the delay for that attempt passes before anything else happens. */
  ghost predicate Paced(cfg: Config, h: seq<Round>) {
    forall k :: 0 <= k < |h| - 1 && Failure(cfg, h[k]) ==>
      Begins(h[k + 1]) - Ends(h[k]) >= cfg.backoff.Delay(Streak(cfg, h, k + 1))
  }

  /** The first n rounds of h happen: one clock, every backoff waited out, and the run still going. */
  ghost predicate Happens(cfg: Config, h: seq<Round>, n: nat) {
    n <= |h| && Clocked(h) && Paced(cfg, h) && Survives(cfg, h, n)
  }

  /** No window of any run sees more than `bound` retries. */
  ghost predicate NeverMoreThan(cfg: Config, bound: nat) {
    forall h: seq<Round>, n: nat, t: int | Happens(cfg, h, n) :: RetriesAt(cfg, h, n, t) <= bound
  }

  /** MaxRestartsPerWindow is a ceiling on the retries of any window with at most k failed launches. */
  ghost predicate CeilingHolds(cfg: Config, k: nat) {
    forall h: seq<Round>, n: nat, t: int | Happens(cfg, h, n) && FailedLaunchesAt(cfg, h, n, t) <= k ::
      RetriesAt(cfg, h, n, t) <= cfg.backoff.maxRestartsPerWindow
  }

  /** A failure that trips neither limit, and whose delay is waited out, leaves the run going. */
  lemma SurvivesOneMore(cfg: Config, h: seq<Round>, k: nat)
    requires 0 < k <= |h| && Survives(cfg, h, k - 1) && Failure(cfg, h[k - 1]) && h[k - 1].wait.TimerFires?
    requires UnaskedExits(cfg, h, 0, k) <= cfg.backoff.maxRestartsPerWindow
    requires cfg.backoff.maxRestarts > 0 ==> Streak(cfg, h, k) <= cfg.backoff.maxRestarts
    ensures Survives(cfg, h, k)
  {
    OnlyLaterExitsCount(cfg, h, 0, k, Ends(h[k - 1]) - cfg.backoff.window, Ends(h[k - 1]));
  }
}
