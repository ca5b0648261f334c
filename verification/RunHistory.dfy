/**
 * What one run of the supervisor has been through, and what the two restart
 * limits say about it, told without the counters the code keeps:
 * internal/supervisor/supervisor.go, `Run`.
 */
module RunHistory {
  import Backoff

  datatype Config = Config(backoff: Backoff.Policy, ephemeral: bool, asksWhetherDone: bool)

  /** How a backoff delay ends. */
  datatype Wait = TimerFires | Cancelled

  /** Why `awaitExit` returns: the child went by itself, or the context was cancelled. */
  datatype Ending = Exits(clean: bool) | Shutdown(stopFails: bool, inTime: bool)

  /**
   * Everything the outside world decides in one turn of the loop. `early`,
   * `during` and `late` are the Restart calls that lock before the child is
   * installed, until its flag is taken, and until it is cleared again. The code
   * reads no clock when a launch fails; `at` is when it does.
   */
  datatype Round =
    | LaunchFails(early: nat, at: int, wait: Wait)
    | Runs(early: nat, startedAt: int, ending: Ending, endedAt: int,
           during: nat, late: nat, jobDone: bool, spentAt: int, wait: Wait)

  datatype Outcome = Running | Stopped | Completed | GaveUp

  /** The first instant of a round. */
  function Begins(r: Round): int { if r.LaunchFails? then r.at else r.startedAt }

  /** Its last instant: when it is charged, or when its launch failed. */
  function Ends(r: Round): int { if r.LaunchFails? then r.at else r.spentAt }

  /** One clock, which never goes back. */
  ghost predicate Clocked(h: seq<Round>) {
    && (forall i :: 0 <= i < |h| && h[i].Runs? ==> h[i].startedAt <= h[i].endedAt <= h[i].spentAt)
    && (forall i, j :: 0 <= i < j < |h| ==> Ends(h[i]) <= Begins(h[j]))
  }

  /** None of the first n rounds ends later than t. */
  ghost predicate NoneAfter(h: seq<Round>, n: nat, t: int)
    requires n <= |h|
  {
    forall i :: 0 <= i < n ==> Ends(h[i]) <= t
  }

  predicate Asked(r: Round) { r.Runs? && r.ending.Exits? && r.during > 0 }

  predicate Completes(cfg: Config, r: Round) {
    && r.Runs? && r.ending.Exits? && r.during == 0
    && cfg.ephemeral && r.ending.clean && (cfg.asksWhetherDone ==> r.jobDone)
  }

  predicate UnaskedExit(cfg: Config, r: Round) {
    r.Runs? && r.ending.Exits? && r.during == 0 && !Completes(cfg, r)
  }

  /** What counts against the process: it would not launch, or it went by itself. */
  predicate Failure(cfg: Config, r: Round) { r.LaunchFails? || UnaskedExit(cfg, r) }

  /** An unasked exit after so long a run that the streak before it is forgiven. */
  predicate Forgives(cfg: Config, r: Round) {
    UnaskedExit(cfg, r) && cfg.backoff.resetAfter > 0 && r.endedAt - r.startedAt >= cfg.backoff.resetAfter
  }

  // Counting over the rounds from i up to, and not including, n

  function Failures(cfg: Config, h: seq<Round>, i: nat, n: nat): nat
    requires i <= n <= |h|
  {
    if i == n then 0 else Failures(cfg, h, i, n - 1) + if Failure(cfg, h[n - 1]) then 1 else 0
  }

  function UnaskedExits(cfg: Config, h: seq<Round>, i: nat, n: nat): nat
    requires i <= n <= |h|
  {
    if i == n then 0 else UnaskedExits(cfg, h, i, n - 1) + if UnaskedExit(cfg, h[n - 1]) then 1 else 0
  }

  /** Unasked exits charged in the half-open span (lo, hi]. */
  function Charged(cfg: Config, h: seq<Round>, i: nat, n: nat, lo: int, hi: int): nat
    requires i <= n <= |h|
  {
    if i == n then 0
    else
      Charged(cfg, h, i, n - 1, lo, hi) +
      if UnaskedExit(cfg, h[n - 1]) && lo < h[n - 1].spentAt <= hi then 1 else 0
  }

  /** Where the last forgiving exit of the first n rounds is, or the beginning. */
  function LastForgiven(cfg: Config, h: seq<Round>, n: nat): (i: nat)
    requires n <= |h|
    ensures i <= n
  {
    if n == 0 then 0
    else if Forgives(cfg, h[n - 1]) then n - 1
    else LastForgiven(cfg, h, n - 1)
  }

  /** Failures since, and including, the last forgiving exit. */
  function Streak(cfg: Config, h: seq<Round>, n: nat): nat
    requires n <= |h|
  {
    Failures(cfg, h, LastForgiven(cfg, h, n), n)
  }

  /** Unasked exits, round n - 1 included, in the window that ends as it is charged. */
  function Recent(cfg: Config, h: seq<Round>, n: nat): nat
    requires 0 < n <= |h|
  {
    var r := h[n - 1];
    if r.LaunchFails? then 0 else Charged(cfg, h, 0, n, r.spentAt - cfg.backoff.window, r.spentAt)
  }

  predicate Budgeted(cfg: Config) { cfg.backoff.maxRestartsPerWindow > 0 && cfg.backoff.window > 0 }

  predicate StreakTrips(cfg: Config, streak: nat) {
    cfg.backoff.maxRestarts > 0 && streak > cfg.backoff.maxRestarts
  }

  predicate WindowTrips(cfg: Config, recent: nat) {
    Budgeted(cfg) && recent > cfg.backoff.maxRestartsPerWindow
  }

  /** What a round does to the run, with this streak and this many recent exits. */
  function Judge(cfg: Config, r: Round, streak: nat, recent: nat): Outcome {
    if r.Runs? && r.ending.Shutdown? then Stopped
    else if Asked(r) then Running
    else if Completes(cfg, r) then Completed
    else if WindowTrips(cfg, recent) || StreakTrips(cfg, streak) then GaveUp
    else if r.wait.Cancelled? then Stopped
    else Running
  }

  /** What round n - 1 does to a run that got there. */
  function Fate(cfg: Config, h: seq<Round>, n: nat): Outcome
    requires 0 < n <= |h|
  {
    Judge(cfg, h[n - 1], Streak(cfg, h, n), Recent(cfg, h, n))
  }

  /** The first n rounds all leave the run going. */
  ghost predicate Survives(cfg: Config, h: seq<Round>, n: nat)
    requires n <= |h|
  {
    n > 0 ==> Survives(cfg, h, n - 1) && Fate(cfg, h, n) == Running
  }

  /** The run takes n rounds of h and ends there with o, or is still going after them. */
  ghost predicate EndsWith(cfg: Config, h: seq<Round>, n: nat, o: Outcome)
    requires n <= |h|
  {
    if o.Running? then Survives(cfg, h, n)
    else n > 0 && Survives(cfg, h, n - 1) && Fate(cfg, h, n) == o
  }

  lemma StreakStep(cfg: Config, h: seq<Round>, n: nat)
    requires 0 < n <= |h|
    ensures Streak(cfg, h, n) ==
            if Forgives(cfg, h[n - 1]) then 1
            else if Failure(cfg, h[n - 1]) then Streak(cfg, h, n - 1) + 1
            else Streak(cfg, h, n - 1)
  {
    if Forgives(cfg, h[n - 1]) {
      assert Failures(cfg, h, n - 1, n - 1) == 0;
    }
  }

  /** What makes that exit the last one: it forgives, unless it is the beginning, and nothing after it does. */
  lemma {:induction false} NothingForgivenSince(cfg: Config, h: seq<Round>, n: nat)
    requires n <= |h|
    ensures var i := LastForgiven(cfg, h, n);
            && (i == 0 || (i < n && Forgives(cfg, h[i])))
            && forall j :: i < j < n ==> !Forgives(cfg, h[j])
  {
    if n > 0 && !Forgives(cfg, h[n - 1]) { NothingForgivenSince(cfg, h, n - 1); }
  }

  lemma {:induction false} SurvivesPrefix(cfg: Config, h: seq<Round>, k: nat, n: nat)
    requires k <= n <= |h| && Survives(cfg, h, n)
    ensures Survives(cfg, h, k)
    decreases n
  {
    if k < n { SurvivesPrefix(cfg, h, k, n - 1); }
  }

  /** A history decides one end and one place for it: no run of it can stop earlier, later or otherwise. */
  lemma EndsOnce(cfg: Config, h: seq<Round>, m: nat, o: Outcome, n: nat, p: Outcome)
    requires m <= |h| && n <= |h| && EndsWith(cfg, h, m, o) && EndsWith(cfg, h, n, p)
    requires !o.Running? && !p.Running?
    ensures m == n && o == p
  {
    if m < n { SurvivesPrefix(cfg, h, m, n - 1); }
    if n < m { SurvivesPrefix(cfg, h, n, m - 1); }
  }
}
