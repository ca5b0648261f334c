/** The supervisor itself: internal/supervisor/supervisor.go, `Supervisor`. */
module Supervisor {
  import opened Options
  import opened RunHistory
  import opened RunLog
  import RunOutcomes
  import RunReports
  import Backoff
  import D = Durations
  import RestartFlag

  /** The readings later than a cutoff, in order. */
  function Later(times: seq<int>, cutoff: int): seq<int> {
    if times == [] then []
    else if times[|times| - 1] > cutoff then Later(times[..|times| - 1], cutoff) + [times[|times| - 1]]
    else Later(times[..|times| - 1], cutoff)
  }

  lemma LaterAppend(times: seq<int>, now: int, cutoff: int)
    ensures Later(times + [now], cutoff) == if now > cutoff then Later(times, cutoff) + [now] else Later(times, cutoff)
  {
    assert (times + [now])[..|times|] == times;
  }

  lemma LaterTake(times: seq<int>, i: nat, cutoff: int)
    requires i < |times|
    ensures Later(times[..i + 1], cutoff) ==
            Later(times[..i], cutoff) + if times[i] > cutoff then [times[i]] else []
  {
    assert times[..i + 1] == times[..i] + [times[i]];
    LaterAppend(times[..i], times[i], cutoff);
  }

  lemma {:induction false} LaterTwice(times: seq<int>, first: int, second: int)
    requires first <= second
    ensures Later(Later(times, first), second) == Later(times, second)
  {
    if times != [] {
      var init, last := times[..|times| - 1], times[|times| - 1];
      LaterTwice(init, first, second);
      LaterAppend(Later(init, first), last, second);
    }
  }

  /** When every unasked exit so far was charged, oldest first. */
  function Charges(cfg: Config, h: seq<Round>, n: nat): seq<int>
    requires n <= |h|
  {
    if n == 0 then []
    else if UnaskedExit(cfg, h[n - 1]) then Charges(cfg, h, n - 1) + [h[n - 1].spentAt]
    else Charges(cfg, h, n - 1)
  }

  /** Where the window of the latest charge starts. */
  function Cutoff(cfg: Config, h: seq<Round>, n: nat): int
    requires n <= |h|
  {
    if n == 0 then 0
    else if UnaskedExit(cfg, h[n - 1]) then h[n - 1].spentAt - cfg.backoff.window
    else Cutoff(cfg, h, n - 1)
  }

  /** What is left of the full history once all that no later window can reach is dropped. */
  function Pruned(cfg: Config, h: seq<Round>, n: nat): seq<int>
    requires n <= |h|
  {
    Later(Charges(cfg, h, n), Cutoff(cfg, h, n))
  }

  lemma {:induction false} CutoffIsEarlier(cfg: Config, h: seq<Round>, n: nat, now: int)
    requires n <= |h| && NoneAfter(h, n, now)
    ensures Charges(cfg, h, n) == [] || Cutoff(cfg, h, n) <= now - cfg.backoff.window
  {
    if n > 0 { CutoffIsEarlier(cfg, h, n - 1, now); }
  }

  lemma {:induction false} LaterCounts(cfg: Config, h: seq<Round>, n: nat, lo: int, hi: int)
    requires n <= |h| && NoneAfter(h, n, hi)
    ensures |Later(Charges(cfg, h, n), lo)| == Charged(cfg, h, 0, n, lo, hi)
  {
    if n > 0 {
      LaterCounts(cfg, h, n - 1, lo, hi);
      if UnaskedExit(cfg, h[n - 1]) { LaterAppend(Charges(cfg, h, n - 1), h[n - 1].spentAt, lo); }
    }
  }

  lemma ClockedNow(h: seq<Round>, n: nat)
    requires Clocked(h) && n < |h| && h[n].Runs?
    ensures NoneAfter(h, n, h[n].spentAt) && NoneAfter(h, n + 1, h[n].spentAt)
  {
    forall i | 0 <= i < n ensures Ends(h[i]) <= h[n].spentAt {
      assert Ends(h[i]) <= Begins(h[n]);
    }
  }

  predicate Sorted(times: seq<int>) { forall i, j :: 0 <= i < j < |times| ==> times[i] <= times[j] }

  /** Whatever is later than a cutoff stays in order, and was there before. */
  lemma {:induction false} LaterIsSorted(times: seq<int>, cutoff: int)
    requires Sorted(times)
    ensures Sorted(Later(times, cutoff))
    ensures forall i :: 0 <= i < |Later(times, cutoff)| ==> Later(times, cutoff)[i] in times
  {
    if times != [] {
      LaterIsSorted(times[..|times| - 1], cutoff);
      forall i | 0 <= i < |Later(times, cutoff)| ensures Later(times, cutoff)[i] in times {
        var before := Later(times[..|times| - 1], cutoff);
        assert i < |before| ==> before[i] in times[..|times| - 1];
      }
    }
  }

  lemma {:induction false} ChargesAreSorted(cfg: Config, h: seq<Round>, n: nat, t: int)
    requires n <= |h| && Clocked(h) && NoneAfter(h, n, t)
    ensures Sorted(Charges(cfg, h, n))
    ensures forall i :: 0 <= i < |Charges(cfg, h, n)| ==> Charges(cfg, h, n)[i] <= t
  {
    if n > 0 && UnaskedExit(cfg, h[n - 1]) {
      ClockedNow(h, n - 1);
      ChargesAreSorted(cfg, h, n - 1, h[n - 1].spentAt);
    } else if n > 0 {
      ChargesAreSorted(cfg, h, n - 1, t);
    }
  }

  /** What the supervisor keeps is always oldest first. */
  lemma PrunedIsSorted(cfg: Config, h: seq<Round>, n: nat)
    requires n <= |h| && Clocked(h)
    ensures Sorted(Pruned(cfg, h, n))
  {
    if n > 0 {
      forall i | 0 <= i < n ensures Ends(h[i]) <= Ends(h[n - 1]) {
        assert i < n - 1 ==> Ends(h[i]) <= Begins(h[n - 1]);
      }
      ChargesAreSorted(cfg, h, n, Ends(h[n - 1]));
      LaterIsSorted(Charges(cfg, h, n), Cutoff(cfg, h, n));
    }
  }

  /** Pruning what was already pruned drops nothing too early. */
  lemma PrunedTwice(cfg: Config, h: seq<Round>, n: nat, now: int)
    requires n <= |h| && NoneAfter(h, n, now) && cfg.backoff.window > 0
    ensures Later(Pruned(cfg, h, n), now - cfg.backoff.window) == Later(Charges(cfg, h, n), now - cfg.backoff.window)
  {
    CutoffIsEarlier(cfg, h, n, now);
    if Charges(cfg, h, n) != [] {
      LaterTwice(Charges(cfg, h, n), Cutoff(cfg, h, n), now - cfg.backoff.window);
    }
  }

  /**
   * Pruning what was already pruned, and charging one more exit, leaves exactly
   * what scanning every exit there ever was would.
   */
  lemma PruningLosesNothing(cfg: Config, h: seq<Round>, n: nat)
    requires n < |h| && Clocked(h) && UnaskedExit(cfg, h[n]) && cfg.backoff.window > 0
    ensures Later(Pruned(cfg, h, n), h[n].spentAt - cfg.backoff.window) + [h[n].spentAt] == Pruned(cfg, h, n + 1)
    ensures |Pruned(cfg, h, n + 1)| == Recent(cfg, h, n + 1)
  {
    ClockedNow(h, n);
    PrunedTwice(cfg, h, n, h[n].spentAt);
    LaterAppend(Charges(cfg, h, n), h[n].spentAt, h[n].spentAt - cfg.backoff.window);
    LaterCounts(cfg, h, n + 1, h[n].spentAt - cfg.backoff.window, h[n].spentAt);
  }

  /** How long a graceful stop is given unless the options say otherwise. */
  const STOP_TIMEOUT: D.Duration := 30 * D.SECOND

  class Supervisor {
    const cfg: Config
    const stopTimeout: D.Duration

    // Guarded by the mutex
    var current: Option<nat>
    var restarting: bool

    // Times of unasked restarts still in the window: the first `used` of the array
    var recent: array<int>
    var used: nat

    // What OnEvent and the child processes have seen
    var log: Trace

    ghost predicate Valid()
      reads this
    {
      used <= recent.Length
    }

    ghost function Live(): seq<int>
      reads this, recent
      requires Valid()
    {
      recent[..used]
    }

    ghost function Shared(): RestartFlag.Shared
      reads this`current, this`restarting
    {
      RestartFlag.Shared(current, restarting)
    }

    /** A policy with neither an initial delay nor a factor means the default one. */
    constructor (backoff: Backoff.Policy, ephemeral: bool, asksWhetherDone: bool, stopTimeout: D.Duration)
      ensures Valid() && fresh(recent) && Live() == [] && Shared() == RestartFlag.IDLE && log == Start
      ensures cfg.backoff == if backoff.factor == 0.0 && backoff.initial == 0 then Backoff.DEFAULT else backoff
      ensures cfg.ephemeral == ephemeral && cfg.asksWhetherDone == asksWhetherDone
      ensures this.stopTimeout == if stopTimeout <= 0 then STOP_TIMEOUT else stopTimeout
    {
      this.stopTimeout := if stopTimeout <= 0 then STOP_TIMEOUT else stopTimeout;
      var policy := if backoff.factor == 0.0 && backoff.initial == 0 then Backoff.DEFAULT else backoff;
      cfg := Config(policy, ephemeral, asksWhetherDone);
      current, restarting := None, false;
      recent, used := new int[0], 0;
      log := Start;
    }

    method Record(a: Act)
      modifies this`log
      ensures log == Then(old(log), a)
    {
      log := Then(log, a);
    }

    method SetCurrent(child: Option<nat>)
      modifies this`current, this`restarting
      ensures Shared() == match child case None => old(Shared()).Clear() case Some(c) => old(Shared()).Install(c)
    {
      current := child;
      if child.Some? {
        restarting := false;
      }
    }

    method TakeRestartFlag() returns (asked: bool)
      modifies this`restarting
      ensures asked == old(restarting) && Shared() == old(Shared()).Take()
    {
      asked := restarting;
      restarting := false;
    }

    /** The locked part of a Restart call, and its answer. */
    method Restart() returns (running: bool)
      modifies this`restarting
      ensures running == old(current).Some? && Shared() == old(Shared()).Request()
    {
      if current.None? {
        return false;
      }
      restarting := true;
      return true;
    }

    /** Any number of Restart calls between two critical sections of Run. */
    method RestartCalls(n: nat)
      modifies this`restarting
      ensures Shared() == if n == 0 then old(Shared()) else old(Shared()).Request()
    {
      for i := 0 to n
        invariant Shared() == if i == 0 then old(Shared()) else old(Shared()).Request()
      {
        var _ := Restart();
      }
    }

    /** Charge one restart, pruning the array over itself, and count the window. */
    method SpendRestart(now: int) returns (spent: nat, limit: int)
      requires Valid()
      modifies this`recent, this`used, recent
      ensures Valid() && (recent == old(recent) || fresh(recent))
      ensures !Budgeted(cfg) ==> spent == 0 && limit == 0 && Live() == old(Live())
      ensures Budgeted(cfg) ==>
                && limit == cfg.backoff.maxRestartsPerWindow
                && Live() == Later(old(Live()), now - cfg.backoff.window) + [now]
                && spent == |Live()| <= old(used) + 1
    {
      limit := cfg.backoff.maxRestartsPerWindow;
      var window := cfg.backoff.window;
      if limit <= 0 || window <= 0 {
        return 0, 0;
      }
      var cutoff := now - window;
      var kept := 0;
      ghost var was := Live();
      for i := 0 to used
        invariant 0 <= kept <= i <= used <= recent.Length && recent == old(recent) && used == |was|
        invariant recent[..kept] == Later(was[..i], cutoff)
        invariant forall j :: i <= j < used ==> recent[j] == was[j]
        modifies recent
      {
        LaterTake(was, i, cutoff);
        if recent[i] > cutoff {
          recent[kept] := recent[i];
          kept := kept + 1;
        }
      }
      assert was[..used] == was;
      AppendAt(kept, now);
      spent := used;
    }

    /** Go's append to the slice of the first `kept` entries: in place while there is room. */
    method AppendAt(kept: nat, now: int)
      requires kept <= recent.Length
      modifies this`recent, this`used, recent
      ensures Valid() && (recent == old(recent) || fresh(recent))
      ensures Live() == old(recent[..kept]) + [now]
    {
      if kept == recent.Length {
        var grown := new int[2 * kept + 1];
        for i := 0 to kept
          invariant recent == old(recent) && recent[..] == old(recent[..])
          invariant forall j :: 0 <= j < i ==> grown[j] == recent[j]
        {
          grown[i] := recent[i];
        }
        assert grown[..kept] == recent[..kept];
        recent := grown;
      }
      recent[kept] := now;
      used := kept + 1;
      assert recent[..kept + 1] == recent[..kept] + [now];
    }

    /** Blocks until the child is gone, stopping it first on cancellation. */
    method AwaitExit(ending: Ending) returns (clean: bool, shutdown: bool)
      modifies this`log
      ensures log == Closing(old(log), ending)
      ensures shutdown == ending.Shutdown? && (ending.Exits? ==> clean == ending.clean)
    {
      if ending.Exits? {
        Record(Reaped);
        return ending.clean, false;
      }
      Record(Emit(Stopping));
      Record(StopSent);
      if ending.stopFails {
        Record(Emit(StopFailed));
      }
      if ending.inTime {
        Record(Reaped);
      } else {
        Record(TimedOut);
        Record(Emit(Killed));
        Record(KillSent);
        Record(Reaped);
      }
      return true, true;
    }

    /** Applies the backoff, and says whether and how Run should return. */
    method WaitBeforeRetry(attempt: nat, wait: Wait) returns (stop: bool, gaveUp: bool)
      requires attempt > 0
      modifies this`log
      ensures log == Retry(old(log), cfg, attempt, wait)
      ensures gaveUp <==> cfg.backoff.maxRestarts > 0 && attempt > cfg.backoff.maxRestarts
      ensures stop <==> gaveUp || wait.Cancelled?
      ensures !gaveUp ==>
                var restarting := Then(old(log), Emit(Restarting(attempt, cfg.backoff.Delay(attempt))));
                log == if wait.Cancelled? then Then(restarting, Emit(StoppedEvent)) else restarting
    {
      if cfg.backoff.maxRestarts > 0 && attempt > cfg.backoff.maxRestarts {
        Record(Emit(GivenUp(attempt - 1)));
        return true, true;
      }
      var delay := cfg.backoff.Delay(attempt);
      Record(Emit(Restarting(attempt, delay)));
      if wait.TimerFires? {
        return false, false;
      }
      Record(Emit(StoppedEvent));
      return true, false;
    }

    method EphemeralFinished(jobDone: bool) returns (finished: bool)
      ensures finished == (cfg.asksWhetherDone ==> jobDone)
    {
      if !cfg.asksWhetherDone {
        return true;
      }
      return jobDone;
    }

    /** The same charge, in terms of the history it belongs to. */
    method SpendFor(script: seq<Round>, n: nat) returns (spent: nat, limit: int)
      requires Valid() && Clocked(script) && n < |script| && UnaskedExit(cfg, script[n])
      requires Budgeted(cfg) ==> Live() == Pruned(cfg, script, n)
      modifies this`recent, this`used, recent
      ensures Valid() && (recent == old(recent) || fresh(recent))
      ensures limit > 0 && spent > limit <==> WindowTrips(cfg, Recent(cfg, script, n + 1))
      ensures Budgeted(cfg) ==>
                && Live() == Pruned(cfg, script, n + 1)
                && spent == used == Recent(cfg, script, n + 1) <= old(used) + 1
    {
      if Budgeted(cfg) { PruningLosesNothing(cfg, script, n); }
      spent, limit := SpendRestart(script[n].spentAt);
    }

    /** What Run does about an exit nobody asked for: forgive, charge, and retry or give up. */
    method HandleFailure(script: seq<Round>, n: nat, attempt: nat) returns (next: nat, outcome: Outcome)
      requires Valid() && Clocked(script) && n < |script| && UnaskedExit(cfg, script[n])
      requires attempt == Streak(cfg, script, n)
      requires Budgeted(cfg) ==> Live() == Pruned(cfg, script, n)
      modifies this`recent, this`used, this`log, recent
      ensures Valid() && (recent == old(recent) || fresh(recent))
      ensures next == Streak(cfg, script, n + 1) || outcome == GaveUp
      ensures outcome == Fate(cfg, script, n + 1)
      ensures log == Failing(old(log), cfg, script[n], attempt, Streak(cfg, script, n + 1), Recent(cfg, script, n + 1))
      ensures Budgeted(cfg) ==>
                Live() == Pruned(cfg, script, n + 1) && used == Recent(cfg, script, n + 1) <= old(used) + 1
    {
      var r := script[n];
      var uptime := r.endedAt - r.startedAt;
      next := attempt;
      StreakStep(cfg, script, n + 1);
      if cfg.backoff.resetAfter > 0 && uptime >= cfg.backoff.resetAfter {
        if next > 0 {
          Record(Emit(Healthy));
        }
        next := 0;
      }
      var spent, limit := SpendFor(script, n);
      if limit > 0 && spent > limit {
        Record(Emit(GivenUp(spent)));
        return next, GaveUp;
      }
      next := next + 1;
      var stop, gaveUp := WaitBeforeRetry(next, r.wait);
      outcome := if !stop then Running else if gaveUp then GaveUp else Stopped;
    }

    /** From a launch until nothing is current again; only calls while it was up count as asking. */
    method LiveAndDie(child: nat, attempt: nat, r: Round) returns (clean: bool, shutdown: bool, asked: bool)
      requires r.Runs?
      modifies this`current, this`restarting, this`log
      ensures current.None? && asked == (r.during > 0)
      ensures log == Closing(Then(Then(old(log), Launched), Emit(Started(attempt))), r.ending)
      ensures shutdown == r.ending.Shutdown? && (r.ending.Exits? ==> clean == r.ending.clean)
    {
      Record(Launched);
      SetCurrent(Some(child));
      Record(Emit(Started(attempt)));
      RestartCalls(r.during);
      clean, shutdown := AwaitExit(r.ending);
      asked := TakeRestartFlag();
      RestartCalls(r.late);
      SetCurrent(None);
    }

    /** What Run does about an exit: nothing if it was asked for, stop if the work is done, and otherwise the above. */
    method FollowExit(script: seq<Round>, n: nat, attempt: nat, clean: bool, asked: bool)
      returns (next: nat, outcome: Outcome)
      requires Valid() && Clocked(script) && n < |script| && script[n].Runs? && script[n].ending == Exits(clean)
      requires attempt == Streak(cfg, script, n) && asked == (script[n].during > 0)
      requires Budgeted(cfg) ==> Live() == Pruned(cfg, script, n)
      modifies this`recent, this`used, this`log, recent
      ensures Valid() && (recent == old(recent) || fresh(recent))
      ensures outcome == Fate(cfg, script, n + 1)
      ensures outcome.Running? ==> next == Streak(cfg, script, n + 1)
      ensures log == Exiting(old(log), cfg, script[n], attempt, Streak(cfg, script, n + 1), Recent(cfg, script, n + 1))
      ensures Budgeted(cfg) ==> Live() == Pruned(cfg, script, n + 1)
      ensures Budgeted(cfg) ==> used <= old(used) + 1
      ensures Budgeted(cfg) ==> used == if UnaskedExit(cfg, script[n]) then Recent(cfg, script, n + 1) else old(used)
    {
      var r := script[n];
      next := attempt;
      StreakStep(cfg, script, n + 1);
      Record(Emit(Exited(attempt, r.endedAt - r.startedAt)));
      if asked {
        Record(Emit(Restarting(attempt, 0)));
        return next, Running;
      }
      if cfg.ephemeral && clean {
        var finished := EphemeralFinished(r.jobDone);
        if finished {
          Record(Emit(CompletedEvent));
          return next, Completed;
        }
      }
      next, outcome := HandleFailure(script, n, attempt);
    }

    /** One turn of the loop in Run. */
    method TakeTurn(script: seq<Round>, n: nat, attempt: nat) returns (next: nat, outcome: Outcome)
      requires Valid() && Clocked(script) && n < |script| && current.None?
      requires attempt == Streak(cfg, script, n)
      requires Budgeted(cfg) ==> Live() == Pruned(cfg, script, n)
      modifies this, recent
      ensures Valid() && current.None? && (recent == old(recent) || fresh(recent))
      ensures outcome == Fate(cfg, script, n + 1)
      ensures outcome == Completed <==>
                && script[n].Runs? && script[n].ending == Exits(true) && script[n].during == 0
                && cfg.ephemeral && (cfg.asksWhetherDone ==> script[n].jobDone)
      ensures outcome.Running? ==> next == Streak(cfg, script, n + 1)
      ensures log == Turn(old(log), cfg, script[n], attempt, Streak(cfg, script, n + 1), Recent(cfg, script, n + 1))
      ensures Budgeted(cfg) ==> Live() == Pruned(cfg, script, n + 1)
      ensures Budgeted(cfg) ==> used <= old(used) + 1
      ensures Budgeted(cfg) ==> used == if UnaskedExit(cfg, script[n]) then Recent(cfg, script, n + 1) else old(used)
    {
      var r := script[n];
      next := attempt;
      StreakStep(cfg, script, n + 1);
      RestartCalls(r.early);
      Record(Emit(Starting(attempt)));
      if r.LaunchFails? {
        Record(LaunchFailed);
        Record(Emit(Exited(attempt, 0)));
        next := attempt + 1;
        var stop, gaveUp := WaitBeforeRetry(next, r.wait);
        return next, if !stop then Running else if gaveUp then GaveUp else Stopped;
      }
      var clean, shutdown, asked := LiveAndDie(n, attempt, r);
      if shutdown {
        Record(Emit(StoppedEvent));
        return next, Stopped;
      }
      next, outcome := FollowExit(script, n, attempt, clean, asked);
    }

    /** The loop: through the rounds of the script, as far as the run goes. */
    method Loop(script: seq<Round>) returns (n: nat, outcome: Outcome)
      requires Valid() && used == 0 && current.None? && log == Start && Clocked(script)
      modifies this, recent
      ensures n <= |script| && EndsWith(cfg, script, n, outcome) && (outcome.Running? ==> n == |script|)
      ensures log == Told(cfg, script, n)
      ensures Valid() && current.None? && (recent == old(recent) || fresh(recent))
      ensures Budgeted(cfg) ==> Live() == Pruned(cfg, script, n) && used <= cfg.backoff.maxRestartsPerWindow + 1
    {
      var attempt: nat := 0;
      n, outcome := 0, Running;
      while n < |script|
        invariant n <= |script| && Valid() && current.None? && (recent == old(recent) || fresh(recent))
        invariant Survives(cfg, script, n) && attempt == Streak(cfg, script, n) && outcome.Running?
        invariant log == Told(cfg, script, n)
        invariant Budgeted(cfg) ==> Live() == Pruned(cfg, script, n) && used <= cfg.backoff.maxRestartsPerWindow
        modifies this, recent
      {
        attempt, outcome := TakeTurn(script, n, attempt);
        n := n + 1;
        if !outcome.Running? {
          return;
        }
      }
    }

    /**
     * Supervises through the rounds the world has in store, as far as the run
     * goes. Whatever they are: it gives up at precisely the first round where
     * one of the two limits, counted over the whole history, is exceeded; a
     * Restart call excuses only the exit of the child it found running; and the
     * pruned array holds what the full history would show.
     */
    method Run(script: seq<Round>) returns (n: nat, outcome: Outcome)
      requires Valid() && used == 0 && current.None? && log == Start && Clocked(script)
      modifies this, recent
      ensures n <= |script| && EndsWith(cfg, script, n, outcome)
      ensures outcome.Running? ==> n == |script|
      // Completed by a clean exit nobody asked for, of an ephemeral process whose work is done
      ensures outcome == Completed <==>
                && n > 0 && script[n - 1].Runs? && script[n - 1].ending == Exits(true) && script[n - 1].during == 0
                && cfg.ephemeral && (cfg.asksWhetherDone ==> script[n - 1].jobDone)
      // Given up on at a failure that is one too many, for the window or for the streak, and stopped by nothing else
      ensures n > 0 ==>
                var r := script[n - 1];
                var failed := r.LaunchFails? ||
                              (r.ending.Exits? && r.during == 0 &&
                               !(cfg.ephemeral && r.ending.clean && (cfg.asksWhetherDone ==> r.jobDone)));
                var p := cfg.backoff;
                var exceeded :=
                  || (r.Runs? && p.maxRestartsPerWindow > 0 && p.window > 0 &&
                      Charged(cfg, script, 0, n, r.spentAt - p.window, r.spentAt) > p.maxRestartsPerWindow)
                  || (p.maxRestarts > 0 && Streak(cfg, script, n) > p.maxRestarts);
                && (outcome == GaveUp <==> failed && exceeded)
                && (outcome == Stopped <==>
                      (r.Runs? && r.ending.Shutdown?) || (failed && !exceeded && r.wait.Cancelled?))
      // A failure that leaves it going is reported last, with the delay of its attempt
      ensures outcome.Running? && n > 0 &&
              (script[n - 1].LaunchFails? ||
               (script[n - 1].ending.Exits? && script[n - 1].during == 0 &&
                !(cfg.ephemeral && script[n - 1].ending.clean && (cfg.asksWhetherDone ==> script[n - 1].jobDone)))) ==>
                var a, p := Streak(cfg, script, n), cfg.backoff;
                && a > 0 && log.Then? && log.act.Emit? && log.act.event.Restarting? && log.act.event.attempt == a
                && (p.initial <= 0 ==> log.act.event.delay == 0)
                && (p.initial > 0 ==>
                      var exact := Backoff.Grown(p.initial as real, if p.factor < 1.0 then 1.0 else p.factor, a - 1);
                      var cap := if p.max > 0 then p.max else 0x7fff_ffff_ffff_ffff;
                      log.act.event.delay == if exact <= cap as real then exact.Floor else cap)
      // And while nothing is forgiven all that is waited is the schedule, attempt after attempt
      ensures outcome.Running? &&
              (forall k :: 0 <= k < n && script[k].Runs? && script[k].ending.Exits? && cfg.backoff.resetAfter > 0 ==>
                 script[k].endedAt - script[k].startedAt < cfg.backoff.resetAfter) ==>
                RunReports.Waited(log) == Backoff.TotalDelay(cfg.backoff, Failures(cfg, script, 0, n))
      ensures log == Told(cfg, script, n)
      ensures Valid() && current.None? && (recent == old(recent) || fresh(recent))
      ensures Budgeted(cfg) ==> Live() == Pruned(cfg, script, n) && used <= cfg.backoff.maxRestartsPerWindow + 1
    {
      n, outcome := Loop(script);
      RunOutcomes.CompletedExactlyWhen(cfg, script, n, outcome);
      if n > 0 { RunOutcomes.GivesUpOnlyOnAFailure(cfg, script, n, outcome); }
      RunReports.ReportsOfARun(cfg, script, n, outcome);
    }
  }

  /** Refuses to supervise nothing; otherwise a supervisor that has not launched or spent anything. */
  method New(command: string, backoff: Backoff.Policy, ephemeral: bool, asksWhetherDone: bool, stopTimeout: D.Duration)
    returns (supervisor: Option<Supervisor>)
    ensures supervisor.None? <==> command == ""
    ensures supervisor.Some? ==>
              var s := supervisor.value;
              && fresh(s) && s.Valid() && fresh(s.recent)
              && s.Live() == [] && s.Shared() == RestartFlag.IDLE && s.log == Start
              && s.cfg.backoff == (if backoff.factor == 0.0 && backoff.initial == 0 then Backoff.DEFAULT else backoff)
              && s.cfg.ephemeral == ephemeral && s.cfg.asksWhetherDone == asksWhetherDone
              && s.stopTimeout == if stopTimeout <= 0 then STOP_TIMEOUT else stopTimeout
  {
    if command == "" {
      return None;
    }
    var s := new Supervisor(backoff, ephemeral, asksWhetherDone, stopTimeout);
    return Some(s);
  }
}
