/** What the two restart limits guarantee over whole runs. */
module RunTheorems {
  import opened RunHistory

  lemma ClockedMeansNoneAfter(h: seq<Round>, n: nat)
    requires Clocked(h) && 0 < n <= |h|
    ensures NoneAfter(h, n, Ends(h[n - 1]))
  {
    forall i | 0 <= i < n ensures Ends(h[i]) <= Ends(h[n - 1]) {
      assert i < n - 1 ==> Ends(h[i]) <= Begins(h[n - 1]);
    }
  }

  /** A window that ends after the last reading holds no more than one that ends at it. */
  lemma {:induction false} LaterWindowHoldsLess(cfg: Config, h: seq<Round>, n: nat, s: int, t: int)
    requires n <= |h| && NoneAfter(h, n, s) && s <= t
    ensures Charged(cfg, h, 0, n, t - cfg.backoff.window, t) <= Charged(cfg, h, 0, n, s - cfg.backoff.window, s)
  {
    if n > 0 { LaterWindowHoldsLess(cfg, h, n - 1, s, t); }
  }

  /**
   * At every instant t, and not only when the budget is looked at, no more
   * unasked exits than the budget were let through in the window ending at t,
   * whatever long uptimes have forgiven in between.
   */
  lemma {:induction false} BudgetHoldsAtEveryInstant(cfg: Config, h: seq<Round>, n: nat, t: int)
    requires n <= |h| && Clocked(h) && Survives(cfg, h, n) && Budgeted(cfg)
    ensures Charged(cfg, h, 0, n, t - cfg.backoff.window, t) <= cfg.backoff.maxRestartsPerWindow
  {
    if n > 0 {
      var r := h[n - 1];
      if UnaskedExit(cfg, r) && r.spentAt <= t {
        ClockedMeansNoneAfter(h, n);
        LaterWindowHoldsLess(cfg, h, n, r.spentAt, t);
      } else {
        BudgetHoldsAtEveryInstant(cfg, h, n - 1, t);
      }
    }
  }

  lemma {:induction false} StreakWithinLimit(cfg: Config, h: seq<Round>, n: nat)
    requires n <= |h| && Survives(cfg, h, n) && cfg.backoff.maxRestarts > 0
    ensures Streak(cfg, h, n) <= cfg.backoff.maxRestarts
  {
    if n > 0 {
      StreakWithinLimit(cfg, h, n - 1);
      StreakStep(cfg, h, n);
    }
  }

  /** m * x, kept as a sum so that the induction below stays linear. */
  function Times(m: nat, x: nat): nat {
    if x == 0 then 0 else Times(m, x - 1) + m
  }

  lemma {:induction false} TimesIsProduct(m: nat, x: nat)
    ensures Times(m, x) == m * x
  {
    if x > 0 { TimesIsProduct(m, x - 1); }
  }

  lemma {:induction false} TimesMonotone(m: nat, x: nat, y: nat)
    requires x <= y
    ensures Times(m, x) <= Times(m, y)
    decreases y
  {
    if x < y { TimesMonotone(m, x, y - 1); }
  }

  /** Every unasked exit buys at most maxRestarts retries, and what came before the first one as many again. */
  lemma {:induction false} RetriesPerExit(cfg: Config, h: seq<Round>, i: nat, n: nat)
    requires i <= n <= |h| && Survives(cfg, h, n) && cfg.backoff.maxRestarts > 0
    ensures Failures(cfg, h, i, n) <= Times(cfg.backoff.maxRestarts, UnaskedExits(cfg, h, i, n)) + Streak(cfg, h, n)
  {
    if i < n {
      RetriesPerExit(cfg, h, i, n - 1);
      StreakWithinLimit(cfg, h, n - 1);
      StreakStep(cfg, h, n);
    }
  }

  lemma RetriesForExits(cfg: Config, h: seq<Round>, i: nat, n: nat, limit: nat)
    requires i <= n <= |h| && Survives(cfg, h, n) && cfg.backoff.maxRestarts > 0
    requires UnaskedExits(cfg, h, i, n) <= limit
    ensures Failures(cfg, h, i, n) <= cfg.backoff.maxRestarts * (limit + 1)
  {
    RetriesPerExit(cfg, h, i, n);
    StreakWithinLimit(cfg, h, n);
    TimesMonotone(cfg.backoff.maxRestarts, UnaskedExits(cfg, h, i, n), limit);
    TimesIsProduct(cfg.backoff.maxRestarts, limit + 1);
  }

  /** Every unasked exit of rounds i to n - 1 is charged in the span (lo, hi]. */
  ghost predicate ExitsWithin(cfg: Config, h: seq<Round>, i: nat, n: nat, lo: int, hi: int)
    requires i <= n <= |h|
  {
    forall k :: i <= k < n && UnaskedExit(cfg, h[k]) ==> lo < h[k].spentAt <= hi
  }

  lemma {:induction false} AllCharged(cfg: Config, h: seq<Round>, i: nat, n: nat, lo: int, hi: int)
    requires i <= n <= |h| && ExitsWithin(cfg, h, i, n, lo, hi)
    ensures UnaskedExits(cfg, h, i, n) <= Charged(cfg, h, 0, n, lo, hi)
  {
    if i < n { AllCharged(cfg, h, i, n - 1, lo, hi); }
  }

  /** Rounds i and j are the first and last of maxRestartsPerWindow + 1 consecutive unasked exits. */
  predicate SpansBudget(cfg: Config, h: seq<Round>, i: nat, j: nat)
    requires i <= j < |h|
  {
    && UnaskedExit(cfg, h[i]) && UnaskedExit(cfg, h[j])
    && UnaskedExits(cfg, h, i, j) == cfg.backoff.maxRestartsPerWindow
  }

  /** Any maxRestartsPerWindow + 1 consecutive unasked exits fall in one window. */
  ghost predicate FailsFast(cfg: Config, h: seq<Round>) {
    forall i, j | 0 <= i <= j < |h| && SpansBudget(cfg, h, i, j) :: h[j].spentAt - h[i].spentAt < cfg.backoff.window
  }

  /** Any maxRestartsPerWindow + 1 consecutive unasked exits take longer than a window. */
  ghost predicate FailsRarely(cfg: Config, h: seq<Round>) {
    forall i, j | 0 <= i <= j < |h| && SpansBudget(cfg, h, i, j) :: h[j].spentAt - h[i].spentAt >= cfg.backoff.window
  }

  /** The unasked exit that has exactly k others from it up to round n. */
  lemma {:induction false} ExitBack(cfg: Config, h: seq<Round>, n: nat, k: nat) returns (i: nat)
    requires n <= |h| && 0 < k <= UnaskedExits(cfg, h, 0, n)
    ensures i < n && UnaskedExit(cfg, h[i]) && UnaskedExits(cfg, h, i, n) == k
  {
    if !UnaskedExit(cfg, h[n - 1]) {
      i := ExitBack(cfg, h, n - 1, k);
    } else if k == 1 {
      i := n - 1;
      assert UnaskedExits(cfg, h, n - 1, n - 1) == 0;
    } else {
      i := ExitBack(cfg, h, n - 1, k - 1);
    }
  }

  /** A process that fails fast is let go on at most maxRestartsPerWindow times. */
  lemma {:induction false} FastFailuresStayWithinBudget(cfg: Config, h: seq<Round>, n: nat)
    requires n <= |h| && Clocked(h) && Survives(cfg, h, n) && Budgeted(cfg) && FailsFast(cfg, h)
    ensures UnaskedExits(cfg, h, 0, n) <= cfg.backoff.maxRestartsPerWindow
  {
    if n > 0 {
      FastFailuresStayWithinBudget(cfg, h, n - 1);
      var l, w := cfg.backoff.maxRestartsPerWindow, cfg.backoff.window;
      if UnaskedExits(cfg, h, 0, n) > l {
        var i := ExitBack(cfg, h, n - 1, l);
        var t := h[n - 1].spentAt;
        assert SpansBudget(cfg, h, i, n - 1);
        ExitsSince(cfg, h, i, n);
        AllCharged(cfg, h, i, n, t - w, t);
        BudgetHoldsAtEveryInstant(cfg, h, n, t);
      }
    }
  }

  lemma ExitsSince(cfg: Config, h: seq<Round>, i: nat, n: nat)
    requires i < n <= |h| && Clocked(h) && h[i].Runs? && h[n - 1].Runs?
    ensures ExitsWithin(cfg, h, i, n, h[i].spentAt - 1, h[n - 1].spentAt)
  {
    ClockedMeansNoneAfter(h, n);
    forall k | i < k < n && UnaskedExit(cfg, h[k]) ensures h[i].spentAt <= h[k].spentAt {
      assert h[i].spentAt <= h[k].startedAt;
    }
  }

  /** A round nobody asked for that leaves the run going is a failure. */
  lemma {:induction false} AllFailures(cfg: Config, h: seq<Round>, n: nat)
    requires n <= |h| && Survives(cfg, h, n) && forall r :: r in h ==> !Asked(r)
    ensures Failures(cfg, h, 0, n) == n
  {
    if n > 0 { AllFailures(cfg, h, n - 1); }
  }

  /**
   * The supervisor cannot loop for ever on a broken process: when any
   * maxRestartsPerWindow + 1 consecutive exits fall in one window and no
   * operator intervenes, the run is over after at most
   * maxRestarts * (maxRestartsPerWindow + 1) + 1 launches, even if every single
   * uptime is long enough to clear the streak.
   */
  lemma BrokenProcessIsGivenUpOn(cfg: Config, h: seq<Round>, n: nat, o: Outcome)
    requires n <= |h| && Clocked(h) && EndsWith(cfg, h, n, o)
    requires Budgeted(cfg) && cfg.backoff.maxRestarts > 0
    requires (forall r :: r in h ==> !Asked(r)) && FailsFast(cfg, h)
    ensures var bound := cfg.backoff.maxRestarts * (cfg.backoff.maxRestartsPerWindow + 1);
            n <= if o.Running? then bound else bound + 1
  {
    var k := if o.Running? then n else n - 1;
    FastFailuresStayWithinBudget(cfg, h, k);
    RetriesForExits(cfg, h, 0, k, cfg.backoff.maxRestartsPerWindow);
    AllFailures(cfg, h, k);
  }

  lemma {:induction false} StreakOfForgiven(cfg: Config, h: seq<Round>, n: nat)
    requires n <= |h| && forall r :: r in h && Failure(cfg, r) ==> Forgives(cfg, r)
    ensures Streak(cfg, h, n) <= 1
  {
    if n > 0 {
      StreakOfForgiven(cfg, h, n - 1);
      StreakStep(cfg, h, n);
    }
  }

  /** What was charged by the time lo does not count in a window that starts there. */
  lemma {:induction false} OnlyLaterExitsCount(cfg: Config, h: seq<Round>, k: nat, n: nat, lo: int, hi: int)
    requires k <= n <= |h| && NoneAfter(h, k, lo)
    ensures Charged(cfg, h, 0, n, lo, hi) <= UnaskedExits(cfg, h, k, n)
    decreases n
  {
    if n > k {
      OnlyLaterExitsCount(cfg, h, k, n - 1, lo, hi);
    } else if n > 0 {
      OnlyLaterExitsCount(cfg, h, n - 1, n - 1, lo, hi);
    }
  }

  lemma {:induction false} ExitsSplit(cfg: Config, h: seq<Round>, i: nat, n: nat)
    requires i < n <= |h|
    ensures UnaskedExits(cfg, h, i, n) == UnaskedExits(cfg, h, i + 1, n) + if UnaskedExit(cfg, h[i]) then 1 else 0
  {
    if i + 1 < n { ExitsSplit(cfg, h, i, n - 1); }
  }

  /**
   * A process that only ever exits after a long run, and rarely, is never given
   * up on.
   */
  lemma RareExitsAreNeverGivenUpOn(cfg: Config, h: seq<Round>, n: nat)
    requires 0 < n <= |h| && Clocked(h)
    requires forall r :: r in h && Failure(cfg, r) ==> Forgives(cfg, r)
    requires Budgeted(cfg) ==> FailsRarely(cfg, h)
    ensures Fate(cfg, h, n) != GaveUp
  {
    var r, l, w := h[n - 1], cfg.backoff.maxRestartsPerWindow, cfg.backoff.window;
    StreakOfForgiven(cfg, h, n);
    if UnaskedExit(cfg, r) && Budgeted(cfg) {
      if UnaskedExits(cfg, h, 0, n - 1) < l {
        OnlyLaterExitsCount(cfg, h, 0, n, r.spentAt - w, r.spentAt);
      } else {
        var i := ExitBack(cfg, h, n - 1, l);
        assert SpansBudget(cfg, h, i, n - 1);
        ClockedMeansNoneAfter(h, i + 1);
        ExitsSplit(cfg, h, i, n);
        OnlyLaterExitsCount(cfg, h, i + 1, n, r.spentAt - w, r.spentAt);
      }
    }
  }

  // Operator restarts are invisible to both limits

  function WithoutAsked(h: seq<Round>, n: nat): (g: seq<Round>)
    requires n <= |h|
  {
    if n == 0 then []
    else WithoutAsked(h, n - 1) + if Asked(h[n - 1]) then [] else [h[n - 1]]
  }

  /** The quantities of the first n rounds depend on those rounds alone. */
  lemma {:induction false} PrefixDecides(cfg: Config, g: seq<Round>, h: seq<Round>, i: nat, n: nat, lo: int, hi: int)
    requires i <= n <= |g| && g <= h
    ensures Failures(cfg, g, i, n) == Failures(cfg, h, i, n)
    ensures Charged(cfg, g, i, n, lo, hi) == Charged(cfg, h, i, n, lo, hi)
    ensures LastForgiven(cfg, g, n) == LastForgiven(cfg, h, n)
  {
    if i < n {
      PrefixDecides(cfg, g, h, i, n - 1, lo, hi);
    } else if n > 0 {
      PrefixDecides(cfg, g, h, n - 1, n - 1, lo, hi);
    }
  }

  lemma FatePrefix(cfg: Config, g: seq<Round>, h: seq<Round>, n: nat)
    requires 0 < n <= |g| && g <= h
    ensures Fate(cfg, g, n) == Fate(cfg, h, n)
  {
    var t := if g[n - 1].Runs? then g[n - 1].spentAt else 0;
    PrefixDecides(cfg, g, h, 0, n, t - cfg.backoff.window, t);
    PrefixDecides(cfg, g, h, LastForgiven(cfg, g, n), n, 0, 0);
  }

  lemma {:induction false} SurvivalPrefix(cfg: Config, g: seq<Round>, h: seq<Round>, n: nat)
    requires n <= |g| && g <= h
    ensures Survives(cfg, g, n) <==> Survives(cfg, h, n)
  {
    if n > 0 {
      SurvivalPrefix(cfg, g, h, n - 1);
      FatePrefix(cfg, g, h, n);
    }
  }

  lemma {:induction false} AskedRoundsLeaveNoTrace(cfg: Config, h: seq<Round>, n: nat, lo: int, hi: int)
    requires n <= |h|
    ensures var g := WithoutAsked(h, n);
            && Streak(cfg, g, |g|) == Streak(cfg, h, n)
            && Charged(cfg, g, 0, |g|, lo, hi) == Charged(cfg, h, 0, n, lo, hi)
  {
    if n > 0 {
      var before, g := WithoutAsked(h, n - 1), WithoutAsked(h, n);
      AskedRoundsLeaveNoTrace(cfg, h, n - 1, lo, hi);
      StreakStep(cfg, h, n);
      if Asked(h[n - 1]) {
        assert g == before;
      } else {
        StreakStep(cfg, g, |g|);
        PrefixDecides(cfg, before, g, 0, |before|, lo, hi);
        PrefixDecides(cfg, before, g, LastForgiven(cfg, before, |before|), |before|, lo, hi);
      }
    }
  }

  /**
   * Deleting every operator-requested exit from a history changes neither
   * whether the run survives it nor what any other round does to the run.
   */
  lemma {:induction false} OperatorRestartsAreTransparent(cfg: Config, h: seq<Round>, n: nat)
    requires n <= |h|
    ensures var g := WithoutAsked(h, n);
            && (Survives(cfg, g, |g|) <==> Survives(cfg, h, n))
            && (n > 0 && !Asked(h[n - 1]) ==> g != [] && Fate(cfg, g, |g|) == Fate(cfg, h, n))
  {
    if n > 0 {
      var before, g, r := WithoutAsked(h, n - 1), WithoutAsked(h, n), h[n - 1];
      OperatorRestartsAreTransparent(cfg, h, n - 1);
      if Asked(r) {
        assert g == before;
      } else {
        var t := if r.Runs? then r.spentAt else 0;
        AskedRoundsLeaveNoTrace(cfg, h, n, t - cfg.backoff.window, t);
        SurvivalPrefix(cfg, before, g, |before|);
      }
    }
  }
}
