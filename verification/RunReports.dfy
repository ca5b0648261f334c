/**
 * What each round of a run reports and does, act by act, and how long a streak
 * waits: internal/supervisor/supervisor.go.
 */
module RunReports {
  import opened Durations
  import opened RunHistory
  import opened RunLog
  import opened Backoff
  import RunTheorems

  function One(b: bool): nat { if b then 1 else 0 }

  lemma RetryCounts(t: Trace, cfg: Config, attempt: nat, wait: Wait, a: Act)
    ensures Count(Retry(t, cfg, attempt, wait), a) == Count(t, a) +
            if StreakTrips(cfg, attempt) then One(a == Emit(GivenUp(if attempt > 0 then attempt - 1 else 0)))
            else One(a == Emit(Restarting(attempt, cfg.backoff.Delay(attempt)))) +
                 One(wait.Cancelled? && a == Emit(StoppedEvent))
  {
    var backing := Then(t, Emit(Restarting(attempt, cfg.backoff.Delay(attempt))));
    assert Count(backing, a) == Count(t, a) + One(a == backing.act);
  }

  lemma OutwaitCounts(t: Trace, inTime: bool, a: Act)
    ensures Count(Outwait(t, inTime), a) == Count(t, a) + One(a == Reaped) +
            if inTime then 0 else One(a == TimedOut) + One(a == Emit(Killed)) + One(a == KillSent)
  {
    var overdue := Then(t, TimedOut);
    var condemned := Then(overdue, Emit(Killed));
    var doomed := Then(condemned, KillSent);
    assert Count(overdue, a) == Count(t, a) + One(a == TimedOut);
    assert Count(condemned, a) == Count(overdue, a) + One(a == Emit(Killed));
    assert Count(doomed, a) == Count(condemned, a) + One(a == KillSent);
  }

  lemma ClosingCounts(t: Trace, ending: Ending, a: Act)
    ensures Count(Closing(t, ending), a) == Count(t, a) + One(a == Reaped) +
            if ending.Exits? then 0
            else One(a == Emit(Stopping)) + One(a == StopSent) + One(ending.stopFails && a == Emit(StopFailed)) +
                 if ending.inTime then 0 else One(a == TimedOut) + One(a == Emit(Killed)) + One(a == KillSent)
  {
    if ending.Shutdown? {
      var announced := Then(t, Emit(Stopping));
      var sent := Then(announced, StopSent);
      var leaving := if ending.stopFails then Then(sent, Emit(StopFailed)) else sent;
      assert Count(announced, a) == Count(t, a) + One(a == Emit(Stopping));
      assert Count(sent, a) == Count(announced, a) + One(a == StopSent);
      assert Count(leaving, a) == Count(sent, a) + One(ending.stopFails && a == Emit(StopFailed));
      OutwaitCounts(leaving, ending.inTime, a);
    }
  }

  lemma FailingCounts(t: Trace, cfg: Config, r: Round, before: nat, after: nat, recent: nat, a: Act)
    ensures Count(Failing(t, cfg, r, before, after, recent), a) == Count(t, a) +
            One(Forgives(cfg, r) && before > 0 && a == Emit(Healthy)) +
            if WindowTrips(cfg, recent) then One(a == Emit(GivenUp(recent)))
            else if StreakTrips(cfg, after) then One(a == Emit(GivenUp(if after > 0 then after - 1 else 0)))
            else One(a == Emit(Restarting(after, cfg.backoff.Delay(after)))) +
                 One(r.wait.Cancelled? && a == Emit(StoppedEvent))
  {
    var forgiven := if Forgives(cfg, r) && before > 0 then Then(t, Emit(Healthy)) else t;
    assert Count(forgiven, a) == Count(t, a) + One(Forgives(cfg, r) && before > 0 && a == Emit(Healthy));
    RetryCounts(forgiven, cfg, after, r.wait, a);
  }

  lemma ExitingCounts(t: Trace, cfg: Config, r: Round, before: nat, after: nat, recent: nat, a: Act)
    requires r.Runs?
    ensures Count(Exiting(t, cfg, r, before, after, recent), a) == Count(t, a) +
            One(a == Emit(Exited(before, r.endedAt - r.startedAt))) +
            if Asked(r) then One(a == Emit(Restarting(before, 0)))
            else if Completes(cfg, r) then One(a == Emit(CompletedEvent))
            else Count(Failing(Start, cfg, r, before, after, recent), a)
  {
    var down := Then(t, Emit(Exited(before, r.endedAt - r.startedAt)));
    assert Count(down, a) == Count(t, a) + One(a == Emit(Exited(before, r.endedAt - r.startedAt)));
    FailingCounts(down, cfg, r, before, after, recent, a);
    FailingCounts(Start, cfg, r, before, after, recent, a);
  }

  lemma LaunchFailureCounts(t: Trace, cfg: Config, r: Round, before: nat, after: nat, recent: nat, a: Act)
    requires r.LaunchFails?
    ensures Count(Turn(t, cfg, r, before, after, recent), a) == Count(t, a) +
            One(a == Emit(Starting(before))) + One(a == LaunchFailed) + One(a == Emit(Exited(before, 0))) +
            Count(Retry(Start, cfg, after, r.wait), a)
  {
    var starting := Then(t, Emit(Starting(before)));
    var failed := Then(starting, LaunchFailed);
    var down := Then(failed, Emit(Exited(before, 0)));
    assert Count(starting, a) == Count(t, a) + One(a == Emit(Starting(before)));
    assert Count(failed, a) == Count(starting, a) + One(a == LaunchFailed);
    assert Count(down, a) == Count(failed, a) + One(a == Emit(Exited(before, 0)));
    RetryCounts(down, cfg, after, r.wait, a);
    RetryCounts(Start, cfg, after, r.wait, a);
  }

  lemma LaunchCounts(t: Trace, cfg: Config, r: Round, before: nat, after: nat, recent: nat, a: Act)
    requires r.Runs?
    ensures Count(Turn(t, cfg, r, before, after, recent), a) == Count(t, a) +
            One(a == Emit(Starting(before))) + One(a == Launched) + One(a == Emit(Started(before))) +
            Count(Closing(Start, r.ending), a) +
            if r.ending.Shutdown? then One(a == Emit(StoppedEvent))
            else Count(Exiting(Start, cfg, r, before, after, recent), a)
  {
    var starting := Then(t, Emit(Starting(before)));
    var launched := Then(starting, Launched);
    var up := Then(launched, Emit(Started(before)));
    assert Count(starting, a) == Count(t, a) + One(a == Emit(Starting(before)));
    assert Count(launched, a) == Count(starting, a) + One(a == Launched);
    assert Count(up, a) == Count(launched, a) + One(a == Emit(Started(before)));
    ClosingCounts(up, r.ending, a);
    ClosingCounts(Start, r.ending, a);
    ExitingCounts(Closing(up, r.ending), cfg, r, before, after, recent, a);
    ExitingCounts(Start, cfg, r, before, after, recent, a);
  }

  /** How often one round reports or does something more. */
  function More(cfg: Config, h: seq<Round>, n: nat, a: Act): int
    requires 0 < n <= |h|
  {
    Count(Told(cfg, h, n), a) - Count(Told(cfg, h, n - 1), a)
  }

  lemma RoundCounts(cfg: Config, h: seq<Round>, n: nat, a: Act)
    requires 0 < n <= |h|
    ensures var r, before, after := h[n - 1], Streak(cfg, h, n - 1), Streak(cfg, h, n);
            More(cfg, h, n, a) == One(a == Emit(Starting(before))) +
            if r.LaunchFails? then
              One(a == LaunchFailed) + One(a == Emit(Exited(before, 0))) + Count(Retry(Start, cfg, after, r.wait), a)
            else
              One(a == Launched) + One(a == Emit(Started(before))) + Count(Closing(Start, r.ending), a) +
              if r.ending.Shutdown? then One(a == Emit(StoppedEvent))
              else Count(Exiting(Start, cfg, r, before, after, Recent(cfg, h, n)), a)
  {
    var t, r := Told(cfg, h, n - 1), h[n - 1];
    if r.LaunchFails? {
      LaunchFailureCounts(t, cfg, r, Streak(cfg, h, n - 1), Streak(cfg, h, n), Recent(cfg, h, n), a);
    } else {
      LaunchCounts(t, cfg, r, Streak(cfg, h, n - 1), Streak(cfg, h, n), Recent(cfg, h, n), a);
    }
  }

  /**
   * What a round does to its child: one launch, waited for if it worked; a stop
   * exactly when the context is cancelled, and a kill exactly when the child then
   * lets the whole stop timeout pass.
   */
  lemma ChildIsHandledExactlySo(cfg: Config, h: seq<Round>, n: nat)
    requires 0 < n <= |h|
    ensures var r := h[n - 1];
            && More(cfg, h, n, LaunchFailed) == (if r.LaunchFails? then 1 else 0)
            && More(cfg, h, n, Launched) == (if r.Runs? then 1 else 0)
            && More(cfg, h, n, Reaped) == (if r.Runs? then 1 else 0)
            && More(cfg, h, n, StopSent) == (if r.Runs? && r.ending.Shutdown? then 1 else 0)
            && More(cfg, h, n, TimedOut) == (if r.Runs? && r.ending.Shutdown? && !r.ending.inTime then 1 else 0)
            && More(cfg, h, n, KillSent) == (if r.Runs? && r.ending.Shutdown? && !r.ending.inTime then 1 else 0)
  {
    forall a | a in {LaunchFailed, Launched, Reaped, StopSent, TimedOut, KillSent}
      ensures More(cfg, h, n, a) ==
              if h[n - 1].LaunchFails? then One(a == LaunchFailed)
              else
                One(a == Launched) + One(a == Reaped) +
                if h[n - 1].ending.Exits? then 0
                else One(a == StopSent) + if h[n - 1].ending.inTime then 0 else One(a == TimedOut) + One(a == KillSent)
    {
      RoundCounts(cfg, h, n, a);
      EndCounts(cfg, h, n, a);
    }
  }

  /** The parts of a round that end it, none of which touches the child once it is gone. */
  lemma EndCounts(cfg: Config, h: seq<Round>, n: nat, a: Act)
    requires 0 < n <= |h| && !a.Emit?
    ensures Count(Retry(Start, cfg, Streak(cfg, h, n), h[n - 1].wait), a) == 0
    ensures h[n - 1].Runs? ==>
              && Count(Exiting(Start, cfg, h[n - 1], Streak(cfg, h, n - 1), Streak(cfg, h, n), Recent(cfg, h, n)), a)
                 == 0
              && Count(Closing(Start, h[n - 1].ending), a) ==
                 One(a == Reaped) +
                 if h[n - 1].ending.Exits? then 0
                 else One(a == StopSent) + if h[n - 1].ending.inTime then 0 else One(a == TimedOut) + One(a == KillSent)
  {
    var r := h[n - 1];
    RetryCounts(Start, cfg, Streak(cfg, h, n), r.wait, a);
    if r.Runs? {
      ClosingCounts(Start, r.ending, a);
      ExitingCounts(Start, cfg, r, Streak(cfg, h, n - 1), Streak(cfg, h, n), Recent(cfg, h, n), a);
      FailingCounts(Start, cfg, r, Streak(cfg, h, n - 1), Streak(cfg, h, n), Recent(cfg, h, n), a);
    }
  }

  /** What a round reports before what follows is known: every attempt, start, exit and stop, once, with its numbers. */
  lemma LifeIsReportedExactlySo(cfg: Config, h: seq<Round>, n: nat, attempt: nat, uptime: int)
    requires 0 < n <= |h|
    ensures var r, now := h[n - 1], attempt == Streak(cfg, h, n - 1);
            && More(cfg, h, n, Emit(Starting(attempt))) == (if now then 1 else 0)
            && More(cfg, h, n, Emit(Started(attempt))) == (if now && r.Runs? then 1 else 0)
            && More(cfg, h, n, Emit(Exited(attempt, uptime))) ==
               (if now && (if r.LaunchFails? then uptime == 0 else r.ending.Exits? && uptime == r.endedAt - r.startedAt)
                then 1 else 0)
            && More(cfg, h, n, Emit(Stopping)) == (if r.Runs? && r.ending.Shutdown? then 1 else 0)
            && More(cfg, h, n, Emit(StopFailed)) ==
               (if r.Runs? && r.ending.Shutdown? && r.ending.stopFails then 1 else 0)
            && More(cfg, h, n, Emit(Killed)) == (if r.Runs? && r.ending.Shutdown? && !r.ending.inTime then 1 else 0)
  {
    forall a | a in {Emit(Starting(attempt)), Emit(Started(attempt)), Emit(Exited(attempt, uptime)),
                     Emit(Stopping), Emit(StopFailed), Emit(Killed)}
      ensures More(cfg, h, n, a) ==
              var r, before := h[n - 1], Streak(cfg, h, n - 1);
              One(a == Emit(Starting(before))) +
              if r.LaunchFails? then One(a == Emit(Exited(before, 0)))
              else
                One(a == Emit(Started(before))) +
                if r.ending.Exits? then One(a == Emit(Exited(before, r.endedAt - r.startedAt)))
                else
                  One(a == Emit(Stopping)) + One(r.ending.stopFails && a == Emit(StopFailed)) +
                  One(!r.ending.inTime && a == Emit(Killed))
    {
      RoundCounts(cfg, h, n, a);
      LifeCounts(cfg, h, n, a);
    }
  }

  lemma LifeCounts(cfg: Config, h: seq<Round>, n: nat, a: Act)
    requires 0 < n <= |h| && a.Emit?
    requires !a.event.Restarting? && !a.event.Healthy? && !a.event.GivenUp?
    requires !a.event.StoppedEvent? && !a.event.CompletedEvent?
    ensures Count(Retry(Start, cfg, Streak(cfg, h, n), h[n - 1].wait), a) == 0
    ensures h[n - 1].Runs? ==>
              && Count(Exiting(Start, cfg, h[n - 1], Streak(cfg, h, n - 1), Streak(cfg, h, n), Recent(cfg, h, n)), a) ==
                 One(a == Emit(Exited(Streak(cfg, h, n - 1), h[n - 1].endedAt - h[n - 1].startedAt)))
              && Count(Closing(Start, h[n - 1].ending), a) ==
                 if h[n - 1].ending.Exits? then 0
                 else
                   One(a == Emit(Stopping)) + One(h[n - 1].ending.stopFails && a == Emit(StopFailed)) +
                   One(!h[n - 1].ending.inTime && a == Emit(Killed))
  {
    var r := h[n - 1];
    RetryCounts(Start, cfg, Streak(cfg, h, n), r.wait, a);
    if r.Runs? {
      ClosingCounts(Start, r.ending, a);
      ExitingCounts(Start, cfg, r, Streak(cfg, h, n - 1), Streak(cfg, h, n), Recent(cfg, h, n), a);
      FailingCounts(Start, cfg, r, Streak(cfg, h, n - 1), Streak(cfg, h, n), Recent(cfg, h, n), a);
    }
  }

  // What follows

  /**
   * What a round reports of its verdict: that a streak was forgiven, that the
   * limits are exceeded and by how much, or that the run is stopped or completed.
   */
  lemma VerdictIsReportedExactlySo(cfg: Config, h: seq<Round>, n: nat, count: nat)
    requires 0 < n <= |h|
    ensures var r, p := h[n - 1], cfg.backoff;
            var done := cfg.ephemeral && r.Runs? && r.ending == Exits(true) && (cfg.asksWhetherDone ==> r.jobDone);
            var failed := r.LaunchFails? || (r.ending.Exits? && r.during == 0 && !done);
            var spent := if r.Runs? then Charged(cfg, h, 0, n, r.spentAt - p.window, r.spentAt) else 0;
            var overspent := p.maxRestartsPerWindow > 0 && p.window > 0 && spent > p.maxRestartsPerWindow;
            var streak := Streak(cfg, h, n);
            var exceeded := p.maxRestarts > 0 && streak > p.maxRestarts;
            && More(cfg, h, n, Emit(Healthy)) ==
               (if failed && r.Runs? && p.resetAfter > 0 && r.endedAt - r.startedAt >= p.resetAfter
                   && Streak(cfg, h, n - 1) > 0 then 1 else 0)
            && More(cfg, h, n, Emit(GivenUp(count))) ==
               (if failed && (if overspent then count == spent else exceeded && count == streak - 1) then 1 else 0)
            && More(cfg, h, n, Emit(CompletedEvent)) == (if r.Runs? && r.during == 0 && done then 1 else 0)
            && More(cfg, h, n, Emit(StoppedEvent)) ==
               (if (r.Runs? && r.ending.Shutdown?) || (failed && !overspent && !exceeded && r.wait.Cancelled?)
                then 1 else 0)
  {
    StreakStep(cfg, h, n);
    VerdictCounts(cfg, h, n, Emit(Healthy));
    VerdictCounts(cfg, h, n, Emit(GivenUp(count)));
    VerdictCounts(cfg, h, n, Emit(CompletedEvent));
    VerdictCounts(cfg, h, n, Emit(StoppedEvent));
  }

  lemma VerdictCounts(cfg: Config, h: seq<Round>, n: nat, a: Act)
    requires 0 < n <= |h| && a.Emit?
    requires a.event.Healthy? || a.event.GivenUp? || a.event.StoppedEvent? || a.event.CompletedEvent?
    ensures More(cfg, h, n, a) ==
            var r := h[n - 1];
            var over := WindowTrips(cfg, Recent(cfg, h, n)) || StreakTrips(cfg, Streak(cfg, h, n));
            if r.Runs? && r.ending.Shutdown? then One(a == Emit(StoppedEvent))
            else if Completes(cfg, r) then One(a == Emit(CompletedEvent))
            else if !Failure(cfg, r) then 0
            else
              One(Forgives(cfg, r) && Streak(cfg, h, n - 1) > 0 && a == Emit(Healthy)) +
              One(WindowTrips(cfg, Recent(cfg, h, n)) && a == Emit(GivenUp(Recent(cfg, h, n)))) +
              One(!WindowTrips(cfg, Recent(cfg, h, n)) && StreakTrips(cfg, Streak(cfg, h, n)) &&
                  a == Emit(GivenUp(Streak(cfg, h, n) - 1))) +
              One(!over && r.wait.Cancelled? && a == Emit(StoppedEvent))
  {
    var r := h[n - 1];
    RoundCounts(cfg, h, n, a);
    if r.Runs? {
      ClosingCounts(Start, r.ending, a);
      ExitingCounts(Start, cfg, r, Streak(cfg, h, n - 1), Streak(cfg, h, n), Recent(cfg, h, n), a);
      FailingCounts(Start, cfg, r, Streak(cfg, h, n - 1), Streak(cfg, h, n), Recent(cfg, h, n), a);
    } else {
      RetryCounts(Start, cfg, Streak(cfg, h, n), r.wait, a);
    }
  }

  /** A failure that leaves the run going ends its report with the attempt it is and the delay that is due. */
  lemma RetriesAreReportedWithTheirDelay(cfg: Config, h: seq<Round>, n: nat)
    requires 0 < n <= |h| && Survives(cfg, h, n)
    requires h[n - 1].LaunchFails? ||
             (h[n - 1].ending.Exits? && h[n - 1].during == 0 &&
              !(cfg.ephemeral && h[n - 1].ending.clean && (cfg.asksWhetherDone ==> h[n - 1].jobDone)))
    ensures var a, p, t := Streak(cfg, h, n), cfg.backoff, Told(cfg, h, n);
            && a > 0 && t.Then? && t.act.Emit? && t.act.event.Restarting? && t.act.event.attempt == a
            && (p.initial <= 0 ==> t.act.event.delay == 0)
            && (p.initial > 0 ==>
                  var exact := Grown(p.initial as real, if p.factor < 1.0 then 1.0 else p.factor, a - 1);
                  var cap := if p.max > 0 then p.max else 0x7fff_ffff_ffff_ffff;
                  t.act.event.delay == if exact <= cap as real then exact.Floor else cap)
  {
    StreakStep(cfg, h, n);
    DelayIsCappedGeometric(cfg.backoff, Streak(cfg, h, n));
    assert Fate(cfg, h, n) == Running;
  }

  /**
   * A retry is announced exactly after an exit an operator asked for, at once and
   * at the attempt it was, and after a failure within both limits, with the delay
   * of the attempt it makes.
   */
  lemma RetriesAreAnnouncedExactlySo(cfg: Config, h: seq<Round>, n: nat, attempt: nat, delay: int)
    requires 0 < n <= |h|
    ensures var r, p := h[n - 1], cfg.backoff;
            var done := cfg.ephemeral && r.Runs? && r.ending == Exits(true) && (cfg.asksWhetherDone ==> r.jobDone);
            var failed := r.LaunchFails? || (r.ending.Exits? && r.during == 0 && !done);
            var spent := if r.Runs? then Charged(cfg, h, 0, n, r.spentAt - p.window, r.spentAt) else 0;
            var overspent := p.maxRestartsPerWindow > 0 && p.window > 0 && spent > p.maxRestartsPerWindow;
            var streak := Streak(cfg, h, n);
            var exceeded := p.maxRestarts > 0 && streak > p.maxRestarts;
            More(cfg, h, n, Emit(Restarting(attempt, delay))) ==
            if r.Runs? && r.ending.Exits? && r.during > 0
            then if attempt == Streak(cfg, h, n - 1) && delay == 0 then 1 else 0
            else if failed && !overspent && !exceeded && attempt == streak && delay == p.Delay(attempt) then 1 else 0
  {
    var r, a := h[n - 1], Emit(Restarting(attempt, delay));
    RoundCounts(cfg, h, n, a);
    if r.Runs? {
      ClosingCounts(Start, r.ending, a);
      ExitingCounts(Start, cfg, r, Streak(cfg, h, n - 1), Streak(cfg, h, n), Recent(cfg, h, n), a);
      FailingCounts(Start, cfg, r, Streak(cfg, h, n - 1), Streak(cfg, h, n), Recent(cfg, h, n), a);
    } else {
      RetryCounts(Start, cfg, Streak(cfg, h, n), r.wait, a);
    }
  }

  /** All the delays a trace reports. */
  function Waited(t: Trace): int {
    match t
    case Start => 0
    case Then(before, act) => Waited(before) + if act.Emit? && act.event.Restarting? then act.event.delay else 0
  }

  lemma RetryWaits(t: Trace, cfg: Config, attempt: nat, wait: Wait)
    ensures Waited(Retry(t, cfg, attempt, wait)) ==
            Waited(t) + if StreakTrips(cfg, attempt) then 0 else cfg.backoff.Delay(attempt)
  {
    var backing := Then(t, Emit(Restarting(attempt, cfg.backoff.Delay(attempt))));
    assert Waited(backing) == Waited(t) + cfg.backoff.Delay(attempt);
  }

  lemma ClosingWaits(t: Trace, ending: Ending)
    ensures Waited(Closing(t, ending)) == Waited(t)
  {
    if ending.Shutdown? {
      var announced := Then(t, Emit(Stopping));
      var sent := Then(announced, StopSent);
      var leaving := if ending.stopFails then Then(sent, Emit(StopFailed)) else sent;
      assert Waited(announced) == Waited(t);
      assert Waited(sent) == Waited(t);
      assert Waited(leaving) == Waited(t);
      var overdue := Then(leaving, TimedOut);
      var condemned := Then(overdue, Emit(Killed));
      assert Waited(overdue) == Waited(t) && Waited(condemned) == Waited(t);
      assert Waited(Then(condemned, KillSent)) == Waited(t);
    }
  }

  lemma ExitingWaits(t: Trace, cfg: Config, r: Round, before: nat, after: nat, recent: nat)
    requires r.Runs?
    ensures Waited(Exiting(t, cfg, r, before, after, recent)) ==
            Waited(t) + if Asked(r) || Completes(cfg, r) || WindowTrips(cfg, recent) || StreakTrips(cfg, after) then 0
                        else cfg.backoff.Delay(after)
  {
    var down := Then(t, Emit(Exited(before, r.endedAt - r.startedAt)));
    var forgiven := if Forgives(cfg, r) && before > 0 then Then(down, Emit(Healthy)) else down;
    assert Waited(down) == Waited(t);
    assert Waited(forgiven) == Waited(t);
    RetryWaits(forgiven, cfg, after, r.wait);
  }

  lemma RoundWaits(cfg: Config, h: seq<Round>, n: nat)
    requires 0 < n <= |h|
    ensures Waited(Told(cfg, h, n)) == Waited(Told(cfg, h, n - 1)) +
            if Failure(cfg, h[n - 1]) && !WindowTrips(cfg, Recent(cfg, h, n)) && !StreakTrips(cfg, Streak(cfg, h, n))
            then cfg.backoff.Delay(Streak(cfg, h, n)) else 0
  {
    var t, r, before, after := Told(cfg, h, n - 1), h[n - 1], Streak(cfg, h, n - 1), Streak(cfg, h, n);
    var starting := Then(t, Emit(Starting(before)));
    assert Waited(starting) == Waited(t);
    if r.LaunchFails? {
      var failed := Then(starting, LaunchFailed);
      assert Waited(failed) == Waited(t);
      RetryWaits(Then(failed, Emit(Exited(before, 0))), cfg, after, r.wait);
    } else {
      var launched := Then(starting, Launched);
      var up := Then(launched, Emit(Started(before)));
      assert Waited(launched) == Waited(t) && Waited(up) == Waited(t);
      ClosingWaits(up, r.ending);
      ExitingWaits(Closing(up, r.ending), cfg, r, before, after, Recent(cfg, h, n));
    }
  }

  /**
   * The delays reported over a streak, from when there was none or the exit that
   * forgave the one before, are those of its attempts one after another, whatever
   * operators asked for in between.
   */
  lemma {:induction false} StreakWaits(cfg: Config, h: seq<Round>, i: nat, n: nat)
    requires i <= n <= |h| && Survives(cfg, h, n)
    requires Streak(cfg, h, i) == 0 || (i < n && Forgives(cfg, h[i]))
    requires forall k :: i < k < n ==> !Forgives(cfg, h[k])
    ensures Waited(Told(cfg, h, n)) == Waited(Told(cfg, h, i)) + TotalDelay(cfg.backoff, Failures(cfg, h, i, n))
    ensures n > i ==> Streak(cfg, h, n) == Failures(cfg, h, i, n)
    decreases n
  {
    if i < n {
      StreakStep(cfg, h, n);
      RoundWaits(cfg, h, n);
      if i < n - 1 {
        StreakWaits(cfg, h, i, n - 1);
      } else {
        assert Failures(cfg, h, i, i) == 0;
      }
    }
  }

  /** Over a run in which nothing was ever forgiven, what was waited is the schedule up to the failures there were. */
  lemma UnforgivenRunWaits(cfg: Config, h: seq<Round>, n: nat)
    requires n <= |h| && Survives(cfg, h, n)
    requires forall k :: 0 <= k < n && h[k].Runs? && h[k].ending.Exits? && cfg.backoff.resetAfter > 0 ==>
               h[k].endedAt - h[k].startedAt < cfg.backoff.resetAfter
    ensures Waited(Told(cfg, h, n)) == TotalDelay(cfg.backoff, Failures(cfg, h, 0, n))
    ensures Streak(cfg, h, n) == Failures(cfg, h, 0, n)
  {
    assert Streak(cfg, h, 0) == 0;
    StreakWaits(cfg, h, 0, n);
  }

  /** The default policy gives up on a process that never stays up after waiting 155 seconds in all. */
  lemma DefaultGivesUpAfter155Seconds(cfg: Config, h: seq<Round>, n: nat)
    requires n <= |h| && EndsWith(cfg, h, n, GaveUp) && cfg.backoff == DEFAULT
    requires forall k :: 0 <= k < n && h[k].Runs? && h[k].ending.Exits? ==> h[k].endedAt - h[k].startedAt < MINUTE
    ensures Failures(cfg, h, 0, n) == 6 && Waited(Told(cfg, h, n)) == 155 * SECOND
  {
    UnforgivenRunWaits(cfg, h, n - 1);
    RoundWaits(cfg, h, n);
    StreakStep(cfg, h, n);
    UnforgivenCounts(cfg, h, n);
    DefaultStreakWaits155Seconds();
  }

  lemma {:induction false} ChargedAreFailures(cfg: Config, h: seq<Round>, n: nat, lo: int, hi: int)
    requires n <= |h|
    ensures Charged(cfg, h, 0, n, lo, hi) <= Failures(cfg, h, 0, n)
  {
    if n > 0 { ChargedAreFailures(cfg, h, n - 1, lo, hi); }
  }

  lemma UnforgivenCounts(cfg: Config, h: seq<Round>, n: nat)
    requires 0 < n <= |h| && Survives(cfg, h, n - 1) && Fate(cfg, h, n) == GaveUp && cfg.backoff == DEFAULT
    requires Streak(cfg, h, n - 1) == Failures(cfg, h, 0, n - 1) && !Forgives(cfg, h[n - 1])
    ensures Failures(cfg, h, 0, n) == 6 && StreakTrips(cfg, Streak(cfg, h, n))
  {
    StreakStep(cfg, h, n);
    if n > 1 {
      RunTheorems.StreakWithinLimit(cfg, h, n - 1);
    }
    ChargedAreFailures(cfg, h, n, Ends(h[n - 1]) - cfg.backoff.window, Ends(h[n - 1]));
  }

  /** What a run that is still going has last reported, and what it has waited. */
  lemma ReportsOfARun(cfg: Config, h: seq<Round>, n: nat, o: Outcome)
    requires n <= |h| && EndsWith(cfg, h, n, o)
    ensures o.Running? && n > 0 &&
            (h[n - 1].LaunchFails? ||
             (h[n - 1].ending.Exits? && h[n - 1].during == 0 &&
              !(cfg.ephemeral && h[n - 1].ending.clean && (cfg.asksWhetherDone ==> h[n - 1].jobDone)))) ==>
              var a, p, t := Streak(cfg, h, n), cfg.backoff, Told(cfg, h, n);
              && a > 0 && t.Then? && t.act.Emit? && t.act.event.Restarting? && t.act.event.attempt == a
              && (p.initial <= 0 ==> t.act.event.delay == 0)
              && (p.initial > 0 ==>
                    var exact := Grown(p.initial as real, if p.factor < 1.0 then 1.0 else p.factor, a - 1);
                    var cap := if p.max > 0 then p.max else 0x7fff_ffff_ffff_ffff;
                    t.act.event.delay == if exact <= cap as real then exact.Floor else cap)
    ensures o.Running? &&
            (forall k :: 0 <= k < n && h[k].Runs? && h[k].ending.Exits? && cfg.backoff.resetAfter > 0 ==>
               h[k].endedAt - h[k].startedAt < cfg.backoff.resetAfter) ==>
              Waited(Told(cfg, h, n)) == TotalDelay(cfg.backoff, Failures(cfg, h, 0, n))
  {
    if o.Running? {
      if n > 0 && (h[n - 1].LaunchFails? ||
                   (h[n - 1].ending.Exits? && h[n - 1].during == 0 &&
                    !(cfg.ephemeral && h[n - 1].ending.clean && (cfg.asksWhetherDone ==> h[n - 1].jobDone))))
      {
        RetriesAreReportedWithTheirDelay(cfg, h, n);
      }
      if forall k :: 0 <= k < n && h[k].Runs? && h[k].ending.Exits? && cfg.backoff.resetAfter > 0 ==>
           h[k].endedAt - h[k].startedAt < cfg.backoff.resetAfter
      {
        UnforgivenRunWaits(cfg, h, n);
      }
    }
  }
}
