/**
 * How a run ends, and what counts against it, in the terms of what happened in
 * each round: internal/supervisor/supervisor.go, `Run`.
 */
module RunOutcomes {
  import opened RunHistory

  function ChargedRounds(cfg: Config, h: seq<Round>, n: nat, lo: int, hi: int): set<nat>
    requires n <= |h|
  {
    set k: nat | k < n && UnaskedExit(cfg, h[k]) && lo < h[k].spentAt <= hi
  }

  lemma {:induction false} ChargedIsASize(cfg: Config, h: seq<Round>, n: nat, lo: int, hi: int)
    requires n <= |h|
    ensures Charged(cfg, h, 0, n, lo, hi) == |ChargedRounds(cfg, h, n, lo, hi)|
  {
    if n > 0 {
      ChargedIsASize(cfg, h, n - 1, lo, hi);
      var before, now := ChargedRounds(cfg, h, n - 1, lo, hi), ChargedRounds(cfg, h, n, lo, hi);
      assert now == if n - 1 in now then before + {n - 1} else before;
    }
  }

  /** The exits charged to a span are those nobody asked for and that did not finish the work. */
  lemma ChargedIsACount(cfg: Config, h: seq<Round>, n: nat, lo: int, hi: int)
    requires n <= |h|
    ensures Charged(cfg, h, 0, n, lo, hi) ==
            |set k: nat | k < n && h[k].Runs? && h[k].ending.Exits? && h[k].during == 0
                          && !(cfg.ephemeral && h[k].ending.clean && (cfg.asksWhetherDone ==> h[k].jobDone))
                          && lo < h[k].spentAt <= hi|
  {
    ChargedIsASize(cfg, h, n, lo, hi);
    assert ChargedRounds(cfg, h, n, lo, hi) ==
      set k: nat | k < n && h[k].Runs? && h[k].ending.Exits? && h[k].during == 0
                   && !(cfg.ephemeral && h[k].ending.clean && (cfg.asksWhetherDone ==> h[k].jobDone))
                   && lo < h[k].spentAt <= hi;
  }

  function FailedRounds(cfg: Config, h: seq<Round>, i: nat, n: nat): set<nat>
    requires i <= n <= |h|
  {
    set k: nat | i <= k < n && Failure(cfg, h[k])
  }

  lemma {:induction false} FailuresAreASize(cfg: Config, h: seq<Round>, i: nat, n: nat)
    requires i <= n <= |h|
    ensures Failures(cfg, h, i, n) == |FailedRounds(cfg, h, i, n)|
  {
    if i < n {
      FailuresAreASize(cfg, h, i, n - 1);
      var before, now := FailedRounds(cfg, h, i, n - 1), FailedRounds(cfg, h, i, n);
      assert now == if n - 1 in now then before + {n - 1} else before;
    }
  }

  /** What counts as a failure is a launch that fails, or such an exit. */
  lemma FailuresAreACount(cfg: Config, h: seq<Round>, i: nat, n: nat)
    requires i <= n <= |h|
    ensures Failures(cfg, h, i, n) ==
            |set k: nat | i <= k < n &&
                          (h[k].LaunchFails? ||
                           (h[k].ending.Exits? && h[k].during == 0
                            && !(cfg.ephemeral && h[k].ending.clean && (cfg.asksWhetherDone ==> h[k].jobDone))))|
  {
    FailuresAreASize(cfg, h, i, n);
    assert FailedRounds(cfg, h, i, n) ==
      set k: nat | i <= k < n &&
                   (h[k].LaunchFails? ||
                    (h[k].ending.Exits? && h[k].during == 0
                     && !(cfg.ephemeral && h[k].ending.clean && (cfg.asksWhetherDone ==> h[k].jobDone))));
  }

  /** Failures over a longer stretch are no fewer. */
  lemma {:induction false} FailuresShrink(cfg: Config, h: seq<Round>, i: nat, j: nat, n: nat)
    requires i <= j <= n <= |h|
    ensures Failures(cfg, h, j, n) <= Failures(cfg, h, i, n)
    decreases n
  {
    if j < n { FailuresShrink(cfg, h, i, j, n - 1); }
  }

  /** The streak exceeds a limit exactly if some stretch up to now does, with nothing forgiven after its first round. */
  lemma StreakExceedsExactlyWhen(cfg: Config, h: seq<Round>, n: nat, limit: nat)
    requires n <= |h|
    ensures Streak(cfg, h, n) > limit <==>
            exists i :: 0 <= i < n && Failures(cfg, h, i, n) > limit &&
              forall k :: i < k < n ==>
                !(h[k].Runs? && h[k].ending.Exits? && h[k].during == 0
                  && !(cfg.ephemeral && h[k].ending.clean && (cfg.asksWhetherDone ==> h[k].jobDone))
                  && cfg.backoff.resetAfter > 0 && h[k].endedAt - h[k].startedAt >= cfg.backoff.resetAfter)
  {
    NothingForgivenSince(cfg, h, n);
    var last := LastForgiven(cfg, h, n);
    if Streak(cfg, h, n) > limit {
      assert last < n && Failures(cfg, h, last, n) > limit;
      assert forall k :: last < k < n ==> !Forgives(cfg, h[k]);
    }
    if i :| 0 <= i < n && Failures(cfg, h, i, n) > limit &&
            forall k :: i < k < n ==>
              !(h[k].Runs? && h[k].ending.Exits? && h[k].during == 0
                && !(cfg.ephemeral && h[k].ending.clean && (cfg.asksWhetherDone ==> h[k].jobDone))
                && cfg.backoff.resetAfter > 0 && h[k].endedAt - h[k].startedAt >= cfg.backoff.resetAfter)
    {
      assert forall k :: i < k < n ==> !Forgives(cfg, h[k]);
      FailuresShrink(cfg, h, last, i, n);
    }
  }

  /** A failure adds one to the streak, or starts it again after a run that was long enough; nothing else touches it. */
  lemma StreakGrowsExactlyOnFailures(cfg: Config, h: seq<Round>, n: nat)
    requires n < |h|
    ensures var r := h[n];
            var failed := r.LaunchFails? ||
                          (r.ending.Exits? && r.during == 0 &&
                           !(cfg.ephemeral && r.ending.clean && (cfg.asksWhetherDone ==> r.jobDone)));
            Streak(cfg, h, n + 1) ==
            if !failed then Streak(cfg, h, n)
            else if r.Runs? && cfg.backoff.resetAfter > 0 && r.endedAt - r.startedAt >= cfg.backoff.resetAfter then 1
            else Streak(cfg, h, n) + 1
  {
    StreakStep(cfg, h, n + 1);
  }

  /** An ephemeral process that exits cleanly without its job done has failed: it counts for streak and window. */
  lemma UnfinishedWorkIsAFailure(cfg: Config, h: seq<Round>, n: nat, lo: int, hi: int)
    requires n < |h| && h[n].Runs? && h[n].ending == Exits(true) && h[n].during == 0
    requires cfg.ephemeral && cfg.asksWhetherDone && !h[n].jobDone
    ensures Streak(cfg, h, n + 1) ==
            if cfg.backoff.resetAfter > 0 && h[n].endedAt - h[n].startedAt >= cfg.backoff.resetAfter then 1
            else Streak(cfg, h, n) + 1
    ensures Charged(cfg, h, 0, n + 1, lo, hi) ==
            Charged(cfg, h, 0, n, lo, hi) + if lo < h[n].spentAt <= hi then 1 else 0
  {
    StreakStep(cfg, h, n + 1);
  }

  /** A run is completed exactly by a clean exit nobody asked for of an ephemeral process whose work is done. */
  lemma CompletedExactlyWhen(cfg: Config, h: seq<Round>, n: nat, o: Outcome)
    requires n <= |h| && EndsWith(cfg, h, n, o)
    ensures o == Completed <==>
            n > 0 && h[n - 1].Runs? && h[n - 1].ending == Exits(true) && h[n - 1].during == 0
            && cfg.ephemeral && (cfg.asksWhetherDone ==> h[n - 1].jobDone)
  {
    assert n > 0 && o.Running? ==> Fate(cfg, h, n) == Running;
  }

  /** Which rounds can end a run otherwise, and which of them stop it. */
  lemma GivesUpOnlyOnAFailure(cfg: Config, h: seq<Round>, n: nat, o: Outcome)
    requires 0 < n <= |h| && EndsWith(cfg, h, n, o)
    ensures var r := h[n - 1];
            var failed := r.LaunchFails? ||
                          (r.ending.Exits? && r.during == 0 &&
                           !(cfg.ephemeral && r.ending.clean && (cfg.asksWhetherDone ==> r.jobDone)));
            var exceeded :=
              || (r.Runs? && cfg.backoff.maxRestartsPerWindow > 0 && cfg.backoff.window > 0 &&
                  Charged(cfg, h, 0, n, r.spentAt - cfg.backoff.window, r.spentAt) > cfg.backoff.maxRestartsPerWindow)
              || (cfg.backoff.maxRestarts > 0 && Streak(cfg, h, n) > cfg.backoff.maxRestarts);
            && (o == GaveUp <==> failed && exceeded)
            && (o == Stopped <==> (r.Runs? && r.ending.Shutdown?) || (failed && !exceeded && r.wait.Cancelled?))
            && (o == Running <==>
                  (r.Runs? && r.ending.Exits? && r.during > 0) || (failed && !exceeded && r.wait.TimerFires?))
  {
    assert Fate(cfg, h, n) == o;
  }

  /**
   * A run gives up exactly at a failure that is one too many: in the window that
   * ends as it is charged, or in a stretch in which nothing is forgiven.
   */
  lemma GaveUpExactlyWhen(cfg: Config, h: seq<Round>, n: nat, o: Outcome)
    requires n <= |h| && EndsWith(cfg, h, n, o)
    ensures o == GaveUp <==>
            && n > 0
            && (h[n - 1].LaunchFails? ||
                (h[n - 1].ending.Exits? && h[n - 1].during == 0 &&
                 !(cfg.ephemeral && h[n - 1].ending.clean && (cfg.asksWhetherDone ==> h[n - 1].jobDone))))
            && (|| (h[n - 1].Runs? && cfg.backoff.maxRestartsPerWindow > 0 && cfg.backoff.window > 0 &&
                    |set k: nat | k < n && h[k].Runs? && h[k].ending.Exits? && h[k].during == 0
                             && !(cfg.ephemeral && h[k].ending.clean && (cfg.asksWhetherDone ==> h[k].jobDone))
                             && h[n - 1].spentAt - cfg.backoff.window < h[k].spentAt <= h[n - 1].spentAt|
                    > cfg.backoff.maxRestartsPerWindow)
                || (cfg.backoff.maxRestarts > 0 &&
                    exists i :: 0 <= i < n && Failures(cfg, h, i, n) > cfg.backoff.maxRestarts &&
                      forall k :: i < k < n ==>
                        !(h[k].Runs? && h[k].ending.Exits? && h[k].during == 0
                          && !(cfg.ephemeral && h[k].ending.clean && (cfg.asksWhetherDone ==> h[k].jobDone))
                          && cfg.backoff.resetAfter > 0 && h[k].endedAt - h[k].startedAt >= cfg.backoff.resetAfter)))
  {
    if n > 0 {
      GivesUpOnlyOnAFailure(cfg, h, n, o);
      var r := h[n - 1];
      if r.Runs? { ChargedIsACount(cfg, h, n, r.spentAt - cfg.backoff.window, r.spentAt); }
      if cfg.backoff.maxRestarts > 0 { StreakExceedsExactlyWhen(cfg, h, n, cfg.backoff.maxRestarts); }
    }
  }
}
