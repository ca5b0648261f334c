/**
 * What a run of the supervisor tells its observer and does to its children, and
 * the discipline that sequence keeps: internal/supervisor/supervisor.go.
 */
module RunLog {
  import opened RunHistory

  /** What `emit` reports; the process id, exit code and error text are left out. */
  datatype Event =
    | Starting(attempt: nat)
    | Started(attempt: nat)
    | Exited(attempt: nat, uptime: int)
    | Restarting(attempt: nat, delay: int)
    | Healthy
    | GivenUp(attempt: nat)
    | Stopping
    | StopFailed
    | Killed
    | StoppedEvent
    | CompletedEvent

  datatype Act =
    | Emit(event: Event)
    | LaunchFailed
    | Launched
    | StopSent
    | TimedOut   // the whole stop timeout has passed
    | KillSent
    | Reaped     // `Wait` has returned

  /** What has happened so far, latest last. */
  datatype Trace = Start | Then(before: Trace, act: Act)

  // Each function below adds to a trace what one part of the code reports and does

  function Retry(t: Trace, cfg: Config, attempt: nat, wait: Wait): Trace {
    if StreakTrips(cfg, attempt) then Then(t, Emit(GivenUp(if attempt > 0 then attempt - 1 else 0)))
    else
      var backing := Then(t, Emit(Restarting(attempt, cfg.backoff.Delay(attempt))));
      if wait.Cancelled? then Then(backing, Emit(StoppedEvent)) else backing
  }

  /** Waiting for a child that was asked to stop. */
  function Outwait(t: Trace, inTime: bool): Trace {
    if inTime then Then(t, Reaped)
    else Then(Then(Then(Then(t, TimedOut), Emit(Killed)), KillSent), Reaped)
  }

  function Closing(t: Trace, ending: Ending): Trace {
    if ending.Exits? then Then(t, Reaped)
    else
      var leaving := Then(Then(t, Emit(Stopping)), StopSent);
      Outwait(if ending.stopFails then Then(leaving, Emit(StopFailed)) else leaving, ending.inTime)
  }

  /** What follows an exit that counts against the process. */
  function Failing(t: Trace, cfg: Config, r: Round, before: nat, after: nat, recent: nat): Trace {
    var forgiven := if Forgives(cfg, r) && before > 0 then Then(t, Emit(Healthy)) else t;
    if WindowTrips(cfg, recent) then Then(forgiven, Emit(GivenUp(recent)))
    else Retry(forgiven, cfg, after, r.wait)
  }

  /** What follows an exit that was not part of a shutdown. */
  function Exiting(t: Trace, cfg: Config, r: Round, before: nat, after: nat, recent: nat): Trace
    requires r.Runs?
  {
    var down := Then(t, Emit(Exited(before, r.endedAt - r.startedAt)));
    if Asked(r) then Then(down, Emit(Restarting(before, 0)))
    else if Completes(cfg, r) then Then(down, Emit(CompletedEvent))
    else Failing(down, cfg, r, before, after, recent)
  }

  function Turn(t: Trace, cfg: Config, r: Round, before: nat, after: nat, recent: nat): Trace {
    var starting := Then(t, Emit(Starting(before)));
    if r.LaunchFails? then
      Retry(Then(Then(starting, LaunchFailed), Emit(Exited(before, 0))), cfg, after, r.wait)
    else
      var closed := Closing(Then(Then(starting, Launched), Emit(Started(before))), r.ending);
      if r.ending.Shutdown? then Then(closed, Emit(StoppedEvent))
      else Exiting(closed, cfg, r, before, after, recent)
  }

  /** Everything n rounds report and do. */
  function Told(cfg: Config, h: seq<Round>, n: nat): Trace
    requires n <= |h|
  {
    if n == 0 then Start
    else
      Turn(Told(cfg, h, n - 1), cfg, h[n - 1],
           Streak(cfg, h, n - 1), Streak(cfg, h, n), Recent(cfg, h, n))
  }

  /** The states of an observer that accepts exactly the disciplined sequences. */
  datatype Watch =
    | Ready | Launching | Absent | Spawned | Up | StopAnnounced | Leaving | Overdue | Condemned | Doomed
    | Closed | Gone | Down | Forgiven | Backing | Over(outcome: Outcome) | Broken

  predicate Says(a: Act, e: Event) { a == Emit(e) }

  function Observe(w: Watch, a: Act): Watch {
    match w
    case Ready => if a.Emit? && a.event.Starting? then Launching else Broken
    case Backing =>
      if a.Emit? && a.event.Starting? then Launching
      else if Says(a, StoppedEvent) then Over(Stopped) else Broken
    case Launching => if a.LaunchFailed? then Absent else if a.Launched? then Spawned else Broken
    case Absent => if a.Emit? && a.event.Exited? then Down else Broken
    case Spawned => if a.Emit? && a.event.Started? then Up else Broken
    case Up => if a.Reaped? then Gone else if Says(a, Stopping) then StopAnnounced else Broken
    case StopAnnounced => if a.StopSent? then Leaving else Broken
    case Leaving =>
      if Says(a, StopFailed) then Leaving
      else if a.Reaped? then Closed
      else if a.TimedOut? then Overdue else Broken
    case Overdue => if Says(a, Killed) then Condemned else Broken
    case Condemned => if a.KillSent? then Doomed else Broken
    case Doomed => if a.Reaped? then Closed else Broken
    case Closed => if Says(a, StoppedEvent) then Over(Stopped) else Broken
    case Gone => if a.Emit? && a.event.Exited? then Down else Broken
    case Down =>
      if !a.Emit? then Broken
      else if a.event.Healthy? then Forgiven
      else if a.event.CompletedEvent? then Over(Completed)
      else Retried(a.event)
    case Forgiven => if a.Emit? then Retried(a.event) else Broken
    case Over(_) => Broken
    case Broken => Broken
  }

  function Retried(e: Event): Watch {
    if e.Restarting? then Backing else if e.GivenUp? then Over(GaveUp) else Broken
  }

  function Watched(t: Trace): Watch {
    match t
    case Start => Ready
    case Then(before, act) => Observe(Watched(before), act)
  }

  /** A child exists: it was launched and has not been waited for. */
  predicate Alive(w: Watch) {
    w.Spawned? || w.Up? || w.StopAnnounced? || w.Leaving? || w.Overdue? || w.Condemned? || w.Doomed?
  }

  function Ended(o: Outcome): Watch { if o.Running? then Backing else Over(o) }

  lemma RetryWatched(t: Trace, cfg: Config, attempt: nat, wait: Wait)
    requires Watched(t).Down? || Watched(t).Forgiven?
    ensures Watched(Retry(t, cfg, attempt, wait)) ==
            if StreakTrips(cfg, attempt) then Over(GaveUp) else if wait.Cancelled? then Over(Stopped) else Backing
  {
    var backing := Then(t, Emit(Restarting(attempt, cfg.backoff.Delay(attempt))));
    assert Watched(backing) == Backing;
  }

  lemma OutwaitWatched(t: Trace, inTime: bool)
    requires Watched(t).Leaving?
    ensures Watched(Outwait(t, inTime)) == Closed
  {
    var overdue := Then(t, TimedOut);
    assert Watched(overdue) == Overdue;
    assert Watched(Then(overdue, Emit(Killed))) == Condemned;
    assert Watched(Then(Then(overdue, Emit(Killed)), KillSent)) == Doomed;
  }

  lemma ClosingWatched(t: Trace, ending: Ending)
    requires Watched(t).Up?
    ensures Watched(Closing(t, ending)) == if ending.Exits? then Gone else Closed
  {
    if ending.Shutdown? {
      var announced := Then(t, Emit(Stopping));
      assert Watched(announced) == StopAnnounced;
      var leaving := Then(announced, StopSent);
      assert Watched(leaving) == Leaving;
      OutwaitWatched(if ending.stopFails then Then(leaving, Emit(StopFailed)) else leaving, ending.inTime);
    }
  }

  lemma ExitingWatched(t: Trace, cfg: Config, r: Round, before: nat, after: nat, recent: nat)
    requires r.Runs? && r.ending.Exits? && Watched(t).Gone?
    ensures Watched(Exiting(t, cfg, r, before, after, recent)) == Ended(Judge(cfg, r, after, recent))
  {
    var down := Then(t, Emit(Exited(before, r.endedAt - r.startedAt)));
    assert Watched(down) == Down;
    if !Asked(r) && !Completes(cfg, r) {
      var forgiven := if Forgives(cfg, r) && before > 0 then Then(down, Emit(Healthy)) else down;
      assert Watched(forgiven).Down? || Watched(forgiven).Forgiven?;
      RetryWatched(forgiven, cfg, after, r.wait);
    }
  }

  lemma TurnWatched(t: Trace, cfg: Config, r: Round, before: nat, after: nat, recent: nat)
    requires Watched(t).Ready? || Watched(t).Backing?
    requires r.LaunchFails? ==> recent == 0
    ensures Watched(Turn(t, cfg, r, before, after, recent)) == Ended(Judge(cfg, r, after, recent))
  {
    var starting := Then(t, Emit(Starting(before)));
    assert Watched(starting) == Launching;
    if r.LaunchFails? {
      assert Watched(Then(starting, LaunchFailed)) == Absent;
      RetryWatched(Then(Then(starting, LaunchFailed), Emit(Exited(before, 0))), cfg, after, r.wait);
    } else {
      assert Watched(Then(starting, Launched)) == Spawned;
      var up := Then(Then(starting, Launched), Emit(Started(before)));
      ClosingWatched(up, r.ending);
      if r.ending.Exits? { ExitingWatched(Closing(up, r.ending), cfg, r, before, after, recent); }
    }
  }

  /**
   * The observer accepts every run: while it goes on nothing is left running
   * between rounds, and it ends in exactly the outcome the limits dictate.
   */
  lemma {:induction false} RunsAreDisciplined(cfg: Config, h: seq<Round>, n: nat, o: Outcome)
    requires n <= |h| && EndsWith(cfg, h, n, o)
    ensures Watched(Told(cfg, h, n)) == if o.Running? && n == 0 then Ready else Ended(o)
  {
    if n > 0 {
      RunsAreDisciplined(cfg, h, n - 1, Running);
      TurnWatched(Told(cfg, h, n - 1), cfg, h[n - 1],
                  Streak(cfg, h, n - 1), Streak(cfg, h, n), Recent(cfg, h, n));
    }
  }

  // Reading the discipline off an accepted trace, at every point of it

  ghost predicate Leads(s: Trace, t: Trace) {
    s == t || (t.Then? && Leads(s, t.before))
  }

  function Count(t: Trace, a: Act): nat {
    match t
    case Start => 0
    case Then(before, act) => Count(before, a) + if act == a then 1 else 0
  }

  lemma {:induction false} NeverBroken(s: Trace, t: Trace)
    requires Leads(s, t) && !Watched(t).Broken?
    ensures !Watched(s).Broken?
  {
    if s != t { NeverBroken(s, t.before); }
  }

  /** An accepted trace has launched what it has reaped, and one more while a child is alive. */
  lemma {:induction false} LaunchesMatchReaps(t: Trace)
    requires !Watched(t).Broken?
    ensures Count(t, Launched) == Count(t, Reaped) + if Alive(Watched(t)) then 1 else 0
  {
    if t.Then? { LaunchesMatchReaps(t.before); }
  }

  /** The last thing done to the current child was to ask it to stop. */
  predicate StopAskedLast(t: Trace) {
    t.Then? && (t.act == StopSent || (t.act == Emit(StopFailed) && StopAskedLast(t.before)))
  }

  lemma {:induction false} LeavingAfterStop(t: Trace)
    requires Watched(t).Leaving?
    ensures StopAskedLast(t)
  {
    if t.act != StopSent { LeavingAfterStop(t.before); }
  }

  lemma AcceptedLaunches(s: Trace, t: Trace)
    requires Leads(s, t) && !Watched(t).Broken?
    ensures 0 <= Count(s, Launched) - Count(s, Reaped) <= 1
    ensures s.Then? && s.act == Launched ==> Count(s.before, Launched) == Count(s.before, Reaped)
  {
    NeverBroken(s, t);
    LaunchesMatchReaps(s);
    if s.Then? && s.act == Launched {
      assert Watched(s.before).Launching?;
      LaunchesMatchReaps(s.before);
    }
  }

  lemma AcceptedKills(s: Trace, t: Trace)
    requires Leads(s, t) && !Watched(t).Broken? && s.Then? && s.act == KillSent
    ensures exists u :: s.before == Then(Then(u, TimedOut), Emit(Killed)) && StopAskedLast(u)
  {
    NeverBroken(s, t);
    assert Watched(s.before).Condemned?;
    assert Watched(s.before.before).Overdue?;
    LeavingAfterStop(s.before.before.before);
    assert s.before == Then(Then(s.before.before.before, TimedOut), Emit(Killed));
  }

  /**
   * At every point of every run at most one child is alive, and each is reaped
   * before the next launch and before the run returns.
   */
  lemma OneChildAtATime(cfg: Config, h: seq<Round>, n: nat, o: Outcome, s: Trace)
    requires n <= |h| && EndsWith(cfg, h, n, o) && Leads(s, Told(cfg, h, n))
    ensures 0 <= Count(s, Launched) - Count(s, Reaped) <= 1
    ensures s.Then? && s.act == Launched ==> Count(s.before, Launched) == Count(s.before, Reaped)
    ensures Count(Told(cfg, h, n), Launched) == Count(Told(cfg, h, n), Reaped)
  {
    var t := Told(cfg, h, n);
    RunsAreDisciplined(cfg, h, n, o);
    AcceptedLaunches(s, t);
    LaunchesMatchReaps(t);
  }

  /** A kill is sent only to a child that was asked to stop and then let its whole timeout pass. */
  lemma KillsFollowTheStopTimeout(cfg: Config, h: seq<Round>, n: nat, o: Outcome, s: Trace)
    requires n <= |h| && EndsWith(cfg, h, n, o)
    requires s.Then? && s.act == KillSent && Leads(s, Told(cfg, h, n))
    ensures exists u :: s.before == Then(Then(u, TimedOut), Emit(Killed)) && StopAskedLast(u)
  {
    RunsAreDisciplined(cfg, h, n, o);
    AcceptedKills(s, Told(cfg, h, n));
  }
}
