/**
 * How many restarts one window can see, exactly, for every policy: the fastest
 * way to fail, every backoff waited out.
 */
module RestartPlans {
  import opened Options
  import opened RunHistory
  import opened RunTheorems
  import opened RestartCeiling
  import Backoff

  /**
   * A way for a process to fail: of each failure after the first, whether it is
   * an exit that forgives the streak before it. s is the streak at the first.
   */
  type Plan = seq<bool>

  /** The streak at failure n. */
  function StreakAt(p: Plan, s: nat, n: nat): nat
    requires n <= |p|
  {
    if n == 0 then s else if p[n - 1] then 1 else StreakAt(p, s, n - 1) + 1
  }

  /** How long after the first failure n comes at the soonest: every delay before it, and every uptime that forgives. */
  function Instant(cfg: Config, p: Plan, s: nat, n: nat): int
    requires n <= |p|
  {
    if n == 0 then 0
    else
      Instant(cfg, p, s, n - 1) + cfg.backoff.Delay(StreakAt(p, s, n - 1)) +
      if p[n - 1] then cfg.backoff.resetAfter else 0
  }

  function Forgiving(p: Plan, n: nat): nat
    requires n <= |p|
  {
    if n == 0 then 0 else Forgiving(p, n - 1) + if p[n - 1] then 1 else 0
  }

  /** The streak limit lets it go on, and what forgives can. */
  ghost predicate Allowed(cfg: Config, p: Plan, s: nat) {
    && (cfg.backoff.maxRestarts > 0 ==> forall n :: 0 <= n <= |p| ==> StreakAt(p, s, n) <= cfg.backoff.maxRestarts)
    && (forall n :: 0 <= n < |p| && p[n] ==> cfg.backoff.resetAfter > 0)
  }

  /** All of it fits in one window, and in its budget. */
  ghost predicate Fits(cfg: Config, p: Plan) {
    && Allowed(cfg, p, 1) && Forgiving(p, |p|) <= cfg.backoff.maxRestartsPerWindow
    && Instant(cfg, p, 1, |p|) < cfg.backoff.window
  }

  /** There is room for this many more failures in the window of the first. */
  ghost predicate Room(cfg: Config, more: nat) {
    exists p: Plan :: |p| == more && Fits(cfg, p)
  }

  lemma {:induction false} PlanPrefix(cfg: Config, p: Plan, q: Plan, s: nat, n: nat)
    requires n <= |p| && p <= q
    ensures StreakAt(p, s, n) == StreakAt(q, s, n) && Instant(cfg, p, s, n) == Instant(cfg, q, s, n)
    ensures Forgiving(p, n) == Forgiving(q, n)
  {
    if n > 0 { PlanPrefix(cfg, p, q, s, n - 1); }
  }

  lemma {:induction false} PlanGrows(cfg: Config, p: Plan, s: nat, m: nat, n: nat)
    requires m <= n <= |p| && Allowed(cfg, p, s)
    ensures 0 <= Instant(cfg, p, s, m) <= Instant(cfg, p, s, n) && Forgiving(p, m) <= Forgiving(p, n)
    decreases n
  {
    if m < n { PlanGrows(cfg, p, s, m, n - 1); } else if n > 0 { PlanGrows(cfg, p, s, n - 1, n - 1); }
  }

  lemma LessFits(cfg: Config, p: Plan, n: nat)
    requires n <= |p| && Fits(cfg, p)
    ensures Fits(cfg, p[..n]) && Room(cfg, n)
  {
    var q := p[..n];
    forall i | 0 <= i <= n ensures StreakAt(q, 1, i) == StreakAt(p, 1, i) {
      PlanPrefix(cfg, q, p, 1, i);
    }
    PlanPrefix(cfg, q, p, 1, n);
    PlanGrows(cfg, p, 1, n, |p|);
  }

  // From a run to a plan

  /** The plan p is for the failures of the first n rounds from lo on, no later and no further on its streak. */
  ghost predicate Follows(cfg: Config, h: seq<Round>, n: nat, lo: int, p: Plan)
    requires 0 < n <= |h|
  {
    && Allowed(cfg, p, 1)
    && StreakAt(p, 1, |p|) <= Streak(cfg, h, n)
    && lo < Ends(h[n - 1]) - Instant(cfg, p, 1, |p|)
    && (!Failure(cfg, h[n - 1]) ==>
          lo < Ends(h[n - 1]) - Instant(cfg, p, 1, |p|) - cfg.backoff.Delay(StreakAt(p, 1, |p|)))
  }

  /** After its last failure the plan's next delay is over by the next round. */
  lemma NextRoundWaits(cfg: Config, h: seq<Round>, n: nat, lo: int, p: Plan)
    requires 0 < n < |h| && Clocked(h) && Paced(cfg, h) && Follows(cfg, h, n, lo, p)
    ensures lo < Begins(h[n]) - Instant(cfg, p, 1, |p|) - cfg.backoff.Delay(StreakAt(p, 1, |p|))
  {
    assert Ends(h[n - 1]) <= Begins(h[n]);
    if Failure(cfg, h[n - 1]) {
      Backoff.DelayIsMonotone(cfg.backoff, StreakAt(p, 1, |p|), Streak(cfg, h, n));
    }
  }

  lemma PlanExtends(cfg: Config, p: Plan, b: bool)
    requires Allowed(cfg, p, 1) && (b ==> cfg.backoff.resetAfter > 0)
    requires cfg.backoff.maxRestarts > 0 ==> (if b then 1 else StreakAt(p, 1, |p|) + 1) <= cfg.backoff.maxRestarts
    ensures var q := p + [b];
            && Allowed(cfg, q, 1) && StreakAt(q, 1, |q|) == (if b then 1 else StreakAt(p, 1, |p|) + 1)
            && Instant(cfg, q, 1, |q|) == Instant(cfg, p, 1, |p|) + cfg.backoff.Delay(StreakAt(p, 1, |p|)) +
                                          (if b then cfg.backoff.resetAfter else 0)
            && Forgiving(q, |q|) == Forgiving(p, |p|) + if b then 1 else 0
  {
    var q := p + [b];
    forall i | 0 <= i <= |p| ensures StreakAt(q, 1, i) == StreakAt(p, 1, i) {
      PlanPrefix(cfg, p, q, 1, i);
    }
    PlanPrefix(cfg, p, q, 1, |p|);
  }

  /** The plan with the next round in it, when that is a failure. */
  function Continued(cfg: Config, p: Plan, r: Round): Plan { if Failure(cfg, r) then p + [Forgives(cfg, r)] else p }

  lemma FirstFollows(cfg: Config, h: seq<Round>, n: nat, lo: int)
    requires n < |h| && Happens(cfg, h, n + 1) && Failure(cfg, h[n]) && lo < Ends(h[n])
    ensures Follows(cfg, h, n + 1, lo, [])
  {
    StreakStep(cfg, h, n + 1);
    if cfg.backoff.maxRestarts > 0 { StreakWithinLimit(cfg, h, n + 1); }
  }

  lemma NextFollows(cfg: Config, h: seq<Round>, n: nat, lo: int, p: Plan)
    requires 0 < n < |h| && Happens(cfg, h, n + 1) && Follows(cfg, h, n, lo, p)
    ensures Follows(cfg, h, n + 1, lo, Continued(cfg, p, h[n])) && lo < Ends(h[n])
    ensures Forgiving(Continued(cfg, p, h[n]), |Continued(cfg, p, h[n])|) ==
            Forgiving(p, |p|) + if Forgives(cfg, h[n]) then 1 else 0
  {
    StreakStep(cfg, h, n + 1);
    if cfg.backoff.maxRestarts > 0 { StreakWithinLimit(cfg, h, n + 1); }
    NextRoundWaits(cfg, h, n, lo, p);
    PlanGrows(cfg, p, 1, 0, |p|);
    if Failure(cfg, h[n]) { PlanExtends(cfg, p, Forgives(cfg, h[n])); }
  }

  lemma {:induction false} RunHasAPlan(cfg: Config, h: seq<Round>, n: nat, lo: int, hi: int) returns (p: Plan)
    requires Happens(cfg, h, n) && NoneAfter(h, n, hi) && Retries(cfg, h, n, lo, hi) > 0
    ensures n > 0 && |p| + 1 == Retries(cfg, h, n, lo, hi) && Follows(cfg, h, n, lo, p)
    ensures Forgiving(p, |p|) <= Charged(cfg, h, 0, n, lo, hi)
  {
    if Retries(cfg, h, n - 1, lo, hi) == 0 {
      p := [];
      FirstFollows(cfg, h, n - 1, lo);
    } else {
      p := RunHasAPlan(cfg, h, n - 1, lo, hi);
      NextFollows(cfg, h, n - 1, lo, p);
      p := Continued(cfg, p, h[n - 1]);
    }
  }

  lemma {:induction false} WindowHasAPlan(cfg: Config, h: seq<Round>, n: nat, t: int) returns (p: Plan)
    requires Happens(cfg, h, n) && Budgeted(cfg) && RetriesAt(cfg, h, n, t) > 0
    ensures |p| + 1 == RetriesAt(cfg, h, n, t) && Fits(cfg, p)
  {
    if Ends(h[n - 1]) > t {
      p := WindowHasAPlan(cfg, h, n - 1, t);
    } else {
      ClockedMeansNoneAfter(h, n);
      p := RunHasAPlan(cfg, h, n, t - cfg.backoff.window, t);
      BudgetHoldsAtEveryInstant(cfg, h, n, t);
    }
  }

  // From a plan to a run

  /** The round of failure k: what forgives is an exit after a long enough run, the rest is as quick as can be. */
  function RoundOf(cfg: Config, p: Plan, launches: bool, k: nat): Round
    requires k <= |p|
  {
    var at := Instant(cfg, p, 1, k);
    if k > 0 && p[k - 1] then
      Runs(0, at - cfg.backoff.resetAfter, Exits(false), at, 0, 0, false, at, TimerFires)
    else if k == 0 || launches then LaunchFails(0, at, TimerFires)
    else Runs(0, at, Exits(false), at, 0, 0, false, at, TimerFires)
  }

  function RunOf(cfg: Config, p: Plan, launches: bool): (h: seq<Round>)
    ensures |h| == |p| + 1 && forall k :: 0 <= k <= |p| ==> h[k] == RoundOf(cfg, p, launches, k)
  {
    seq(|p| + 1, (k: nat) requires k <= |p| => RoundOf(cfg, p, launches, k))
  }

  lemma RoundsWait(cfg: Config, p: Plan, launches: bool, k: nat)
    requires k < |p|
    ensures Begins(RoundOf(cfg, p, launches, k + 1)) ==
            Ends(RoundOf(cfg, p, launches, k)) + cfg.backoff.Delay(StreakAt(p, 1, k))
  {
  }

  lemma RunIsClocked(cfg: Config, p: Plan, launches: bool)
    requires Allowed(cfg, p, 1)
    ensures Clocked(RunOf(cfg, p, launches))
  {
    var h := RunOf(cfg, p, launches);
    forall i, j | 0 <= i < j < |h| ensures Ends(h[i]) <= Begins(h[j]) {
      PlanGrows(cfg, p, 1, i, j - 1);
      RoundsWait(cfg, p, launches, j - 1);
    }
  }

  lemma {:induction false} RunCounts(cfg: Config, p: Plan, launches: bool, k: nat)
    requires Allowed(cfg, p, 1) && 0 < k <= |p| + 1
    ensures var h := RunOf(cfg, p, launches);
            && Streak(cfg, h, k) == StreakAt(p, 1, k - 1)
            && UnaskedExits(cfg, h, 0, k) == if launches then Forgiving(p, k - 1) else k - 1
  {
    var h := RunOf(cfg, p, launches);
    StreakStep(cfg, h, k);
    if k > 1 {
      RunCounts(cfg, p, launches, k - 1);
    } else {
      assert Streak(cfg, h, 0) == 0;
    }
  }

  lemma {:induction false} RunSurvives(cfg: Config, p: Plan, launches: bool, k: nat)
    requires Fits(cfg, p) && (launches || |p| <= cfg.backoff.maxRestartsPerWindow) && k <= |p| + 1
    ensures Survives(cfg, RunOf(cfg, p, launches), k)
  {
    if k > 0 {
      RunSurvives(cfg, p, launches, k - 1);
      RunCounts(cfg, p, launches, k);
      PlanGrows(cfg, p, 1, k - 1, |p|);
      SurvivesOneMore(cfg, RunOf(cfg, p, launches), k);
    }
  }

  lemma RoundInWindow(cfg: Config, p: Plan, launches: bool, k: nat)
    requires Fits(cfg, p) && k <= |p|
    ensures var r := RoundOf(cfg, p, launches, k);
            && Failure(cfg, r) && (r.LaunchFails? && !launches ==> k == 0)
            && 0 <= Ends(r) <= Instant(cfg, p, 1, |p|) < cfg.backoff.window
  {
    PlanGrows(cfg, p, 1, k, |p|);
  }

  lemma {:induction false} RunRetries(cfg: Config, p: Plan, launches: bool, k: nat)
    requires Fits(cfg, p) && k <= |p| + 1
    ensures RetriesAt(cfg, RunOf(cfg, p, launches), k, Instant(cfg, p, 1, |p|)) == k
    ensures !launches ==>
              FailedLaunchesAt(cfg, RunOf(cfg, p, launches), k, Instant(cfg, p, 1, |p|)) <= if k == 0 then 0 else 1
  {
    if k > 0 {
      RunRetries(cfg, p, launches, k - 1);
      RoundInWindow(cfg, p, launches, k - 1);
    }
  }

  lemma RunIsPaced(cfg: Config, p: Plan, launches: bool)
    requires Allowed(cfg, p, 1)
    ensures Paced(cfg, RunOf(cfg, p, launches))
  {
    var h := RunOf(cfg, p, launches);
    forall k | 0 <= k < |h| - 1 ensures Begins(h[k + 1]) - Ends(h[k]) >= cfg.backoff.Delay(Streak(cfg, h, k + 1)) {
      RunCounts(cfg, p, launches, k + 1);
      RoundsWait(cfg, p, launches, k);
    }
  }

  /** A plan that fits is a run that happens, every one of whose failures is retried within one window. */
  lemma PlanHappens(cfg: Config, p: Plan, launches: bool) returns (h: seq<Round>, t: int)
    requires Fits(cfg, p) && (launches || |p| <= cfg.backoff.maxRestartsPerWindow)
    ensures Happens(cfg, h, |h|) && RetriesAt(cfg, h, |h|, t) == |p| + 1
    ensures !launches ==> FailedLaunchesAt(cfg, h, |h|, t) <= 1
  {
    h, t := RunOf(cfg, p, launches), Instant(cfg, p, 1, |p|);
    RunIsClocked(cfg, p, launches);
    RunIsPaced(cfg, p, launches);
    RunSurvives(cfg, p, launches, |h|);
    RunRetries(cfg, p, launches, |h|);
  }

  // Exactly how many, and exactly when that is what the policy says

  /** No window of any run sees more than `bound` retries exactly if there is no room for that many after the first. */
  lemma RoomIsExact(cfg: Config, bound: nat)
    requires Budgeted(cfg)
    ensures NeverMoreThan(cfg, bound) <==> !Room(cfg, bound)
  {
    if Room(cfg, bound) {
      var p: Plan :| |p| == bound && Fits(cfg, p);
      var h, t := PlanHappens(cfg, p, true);
      assert Happens(cfg, h, |h|) && RetriesAt(cfg, h, |h|, t) > bound;
    } else {
      forall h: seq<Round>, n: nat, t: int | Happens(cfg, h, n) ensures RetriesAt(cfg, h, n, t) <= bound {
        if RetriesAt(cfg, h, n, t) > bound {
          var p := WindowHasAPlan(cfg, h, n, t);
          LessFits(cfg, p, bound);
        }
      }
    }
  }

  lemma CeilingHoldsWithoutFailedLaunches(cfg: Config)
    requires Budgeted(cfg)
    ensures CeilingHolds(cfg, 0)
  {
    forall h: seq<Round>, n: nat, t: int | Happens(cfg, h, n) && FailedLaunchesAt(cfg, h, n, t) <= 0
      ensures RetriesAt(cfg, h, n, t) <= cfg.backoff.maxRestartsPerWindow
    {
      RetriesAreExitsAndFailedLaunches(cfg, h, n, t - cfg.backoff.window, t);
      BudgetHoldsAtEveryInstant(cfg, h, n, t);
    }
  }

  /**
   * For every policy with a budget: MaxRestartsPerWindow is a ceiling on the
   * retries of every window with at most k failed launches exactly if k is zero,
   * or the streak limit and the delays leave no room for one failure more.
   */
  lemma CeilingHoldsExactlyWhen(cfg: Config, k: nat)
    requires Budgeted(cfg)
    ensures CeilingHolds(cfg, k) <==> k == 0 || !Room(cfg, cfg.backoff.maxRestartsPerWindow)
  {
    var l := cfg.backoff.maxRestartsPerWindow;
    if k == 0 {
      CeilingHoldsWithoutFailedLaunches(cfg);
    } else if Room(cfg, l) {
      var p: Plan :| |p| == l && Fits(cfg, p);
      var h, t := PlanHappens(cfg, p, false);
      assert Happens(cfg, h, |h|) && FailedLaunchesAt(cfg, h, |h|, t) <= k && RetriesAt(cfg, h, |h|, t) > l;
    } else {
      RoomIsExact(cfg, l);
    }
  }

  // The room there is, computed

  /** How soon after a failure on streak s `more` can follow, at most `uses` of them forgiving. */
  function Soonest(cfg: Config, s: nat, more: nat, uses: nat): Option<int>
    decreases more
  {
    if more == 0 then Some(0)
    else
      var delay := cfg.backoff.Delay(s);
      var on := if cfg.backoff.maxRestarts <= 0 || s + 1 <= cfg.backoff.maxRestarts
                then After(delay, Soonest(cfg, s + 1, more - 1, uses)) else None;
      var anew := if cfg.backoff.resetAfter > 0 && uses > 0
                  then After(delay + cfg.backoff.resetAfter, Soonest(cfg, 1, more - 1, uses - 1)) else None;
      Earlier(on, anew)
  }

  function After(delay: int, next: Option<int>): Option<int> {
    if next.Some? then Some(delay + next.value) else None
  }

  function Earlier(a: Option<int>, b: Option<int>): Option<int> {
    if a.None? || (b.Some? && b.value <= a.value) then b else a
  }

  /** What of a plan comes after its first failure but one, from the streak that leaves. */
  lemma {:induction false} PlanFromItsHead(cfg: Config, p: Plan, s: nat, n: nat)
    requires 0 < n <= |p|
    ensures var next := if p[0] then 1 else s + 1;
            && StreakAt(p, s, n) == StreakAt(p[1..], next, n - 1)
            && Instant(cfg, p, s, n) == cfg.backoff.Delay(s) + (if p[0] then cfg.backoff.resetAfter else 0) +
                                        Instant(cfg, p[1..], next, n - 1)
            && Forgiving(p, n) == Forgiving(p[1..], n - 1) + if p[0] then 1 else 0
  {
    if n > 1 { PlanFromItsHead(cfg, p, s, n - 1); }
  }

  lemma TailIsAllowed(cfg: Config, p: Plan, s: nat)
    requires p != [] && Allowed(cfg, p, s)
    ensures Allowed(cfg, p[1..], if p[0] then 1 else s + 1)
  {
    var rest, next := p[1..], if p[0] then 1 else s + 1;
    forall n | 0 <= n <= |rest| ensures StreakAt(rest, next, n) == StreakAt(p, s, n + 1) {
      PlanFromItsHead(cfg, p, s, n + 1);
    }
  }

  lemma {:induction false} NoPlanIsSooner(cfg: Config, p: Plan, s: nat, uses: nat)
    requires Allowed(cfg, p, s) && Forgiving(p, |p|) <= uses
    ensures Soonest(cfg, s, |p|, uses).Some? && Soonest(cfg, s, |p|, uses).value <= Instant(cfg, p, s, |p|)
    decreases |p|
  {
    if p != [] {
      var rest, next, left := p[1..], if p[0] then 1 else s + 1, if p[0] then uses - 1 else uses;
      PlanFromItsHead(cfg, p, s, |p|);
      TailIsAllowed(cfg, p, s);
      assert p[0] ==> cfg.backoff.resetAfter > 0;
      assert StreakAt(p, s, 0) == s && StreakAt(p, s, 1) == next;
      NoPlanIsSooner(cfg, rest, next, left);
    }
  }

  lemma HeadIsAllowed(cfg: Config, b: bool, p: Plan, s: nat)
    requires Allowed(cfg, p, if b then 1 else s + 1) && (b ==> cfg.backoff.resetAfter > 0)
    requires cfg.backoff.maxRestarts > 0 ==> s <= cfg.backoff.maxRestarts
    ensures Allowed(cfg, [b] + p, s)
  {
    var q := [b] + p;
    assert q[1..] == p;
    forall n | 0 < n <= |q| ensures StreakAt(q, s, n) == StreakAt(p, if b then 1 else s + 1, n - 1) {
      PlanFromItsHead(cfg, q, s, n);
    }
  }

  lemma {:induction false} SomePlanIsAsSoon(cfg: Config, s: nat, more: nat, uses: nat) returns (p: Plan)
    requires Soonest(cfg, s, more, uses).Some? && (cfg.backoff.maxRestarts > 0 ==> s <= cfg.backoff.maxRestarts)
    ensures |p| == more && Allowed(cfg, p, s) && Forgiving(p, |p|) <= uses
    ensures Instant(cfg, p, s, |p|) == Soonest(cfg, s, more, uses).value
    decreases more
  {
    p := [];
    if more > 0 {
      var delay := cfg.backoff.Delay(s);
      var b := cfg.backoff.resetAfter > 0 && uses > 0 &&
        Soonest(cfg, s, more, uses) == After(delay + cfg.backoff.resetAfter, Soonest(cfg, 1, more - 1, uses - 1));
      var q := SomePlanIsAsSoon(cfg, if b then 1 else s + 1, more - 1, if b then uses - 1 else uses);
      p := [b] + q;
      assert p[1..] == q;
      HeadIsAllowed(cfg, b, q, s);
      PlanFromItsHead(cfg, p, s, |p|);
    }
  }

  /** Whether there is room, told without trying every plan. */
  lemma RoomIsComputed(cfg: Config, more: nat)
    requires Budgeted(cfg)
    ensures Room(cfg, more) <==>
            var soonest := Soonest(cfg, 1, more, cfg.backoff.maxRestartsPerWindow);
            soonest.Some? && soonest.value < cfg.backoff.window
  {
    if Room(cfg, more) {
      var p: Plan :| |p| == more && Fits(cfg, p);
      NoPlanIsSooner(cfg, p, 1, cfg.backoff.maxRestartsPerWindow);
    }
    var soonest := Soonest(cfg, 1, more, cfg.backoff.maxRestartsPerWindow);
    if soonest.Some? && soonest.value < cfg.backoff.window {
      var p := SomePlanIsAsSoon(cfg, 1, more, cfg.backoff.maxRestartsPerWindow);
      assert Fits(cfg, p);
    }
  }
}
