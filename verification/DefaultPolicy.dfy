/** What the default policy allows in an hour. */
module DefaultPolicy {
  import opened RunHistory
  import opened RunTheorems
  import opened RestartCeiling
  import opened RestartPlans
  import Backoff
  import D = Durations

  const PLAIN: Config := Config(Backoff.DEFAULT, false, false)

  /** Five launches that fail, and then a minute's run and four launches that fail, over and over. */
  function Busy(k: nat): Round {
    var group, place := k / 5, k % 5;
    var at := if group == 0 then 0 else (300 * group - 85) * D.SECOND;
    if group > 0 && place == 0 then
      Runs(0, at - D.MINUTE, Exits(false), at, 0, 0, false, at, TimerFires)
    else LaunchFails(0, at + Backoff.TotalDelay(Backoff.DEFAULT, place), TimerFires)
  }

  function BusyHour(): (h: seq<Round>)
    ensures |h| == 55 && forall k :: 0 <= k < 55 ==> h[k] == Busy(k)
  {
    seq(55, (k: nat) => Busy(k))
  }

  /** One launch that fails, and then ten runs of a minute. */
  function Slow(k: nat): Round {
    if k == 0 then LaunchFails(0, 0, TimerFires)
    else Runs(0, (65 * k - 60) * D.SECOND, Exits(false), 65 * k * D.SECOND, 0, 0, false, 65 * k * D.SECOND, TimerFires)
  }

  function SlowHour(): (h: seq<Round>)
    ensures |h| == 11 && forall k :: 0 <= k < 11 ==> h[k] == Slow(k)
  {
    seq(11, (k: nat) => Slow(k))
  }

  lemma BusyTimes(k: nat)
    requires k < 55
    ensures 0 <= Begins(Busy(k)) <= Ends(Busy(k)) <= 2990 * D.SECOND
    ensures k < 54 ==> Begins(Busy(k + 1)) - Ends(Busy(k)) >= Backoff.DEFAULT.Delay(k % 5 + 1) >= 0
  {
    Backoff.DefaultDelays();
    Backoff.DefaultStreakWaits155Seconds();
  }

  lemma {:induction false} BusyIsClocked(i: nat, j: nat)
    requires i < j < 55
    ensures Ends(Busy(i)) <= Begins(Busy(j))
    decreases j
  {
    BusyTimes(j - 1);
    if i < j - 1 { BusyIsClocked(i, j - 1); }
  }

  lemma BusyRound(k: nat)
    requires k < 55
    ensures Failure(PLAIN, Busy(k)) && Busy(k).wait.TimerFires?
    ensures Forgives(PLAIN, Busy(k)) == UnaskedExit(PLAIN, Busy(k)) == (k > 0 && k % 5 == 0)
    ensures k > 0 ==> k % 5 == (if (k - 1) % 5 == 4 then 0 else (k - 1) % 5 + 1)
    ensures k > 0 ==> k / 5 == (k - 1) / 5 + if k % 5 == 0 then 1 else 0
  {
  }

  lemma {:induction false} BusyHourCounts(n: nat)
    requires n <= 55
    ensures var h := BusyHour();
            && RetriesAt(PLAIN, h, n, D.HOUR - 1) == n
            && Streak(PLAIN, h, n) == (if n == 0 then 0 else (n - 1) % 5 + 1)
            && UnaskedExits(PLAIN, h, 0, n) == if n == 0 then 0 else (n - 1) / 5
  {
    if n > 0 {
      BusyHourCounts(n - 1);
      BusyTimes(n - 1);
      BusyRound(n - 1);
      StreakStep(PLAIN, BusyHour(), n);
    }
  }

  lemma {:induction false} BusyHourSurvives(n: nat)
    requires n <= 55
    ensures Survives(PLAIN, BusyHour(), n)
  {
    if n > 0 {
      BusyHourSurvives(n - 1);
      BusyHourCounts(n);
      BusyRound(n - 1);
      SurvivesOneMore(PLAIN, BusyHour(), n);
    }
  }

  lemma {:induction false} SlowHourSurvives(n: nat)
    requires n <= 11
    ensures var h := SlowHour();
            && Survives(PLAIN, h, n) && RetriesAt(PLAIN, h, n, D.HOUR - 1) == n
            && FailedLaunchesAt(PLAIN, h, n, D.HOUR - 1) <= (if n == 0 then 0 else 1)
            && Streak(PLAIN, h, n) == (if n == 0 then 0 else 1)
            && UnaskedExits(PLAIN, h, 0, n) == if n == 0 then 0 else n - 1
  {
    if n > 0 {
      SlowHourSurvives(n - 1);
      StreakStep(PLAIN, SlowHour(), n);
      SurvivesOneMore(PLAIN, SlowHour(), n);
    }
  }

  lemma BusyHourIsPaced()
    ensures Clocked(BusyHour()) && Paced(PLAIN, BusyHour())
  {
    var h := BusyHour();
    forall i, j | 0 <= i < j < |h| ensures Ends(h[i]) <= Begins(h[j]) {
      BusyIsClocked(i, j);
    }
    forall k | 0 <= k < |h| - 1
      ensures Begins(h[k + 1]) - Ends(h[k]) >= Backoff.DEFAULT.Delay(Streak(PLAIN, h, k + 1))
    {
      BusyTimes(k);
      BusyHourCounts(k + 1);
    }
  }

  lemma SlowHourIsPaced()
    ensures Clocked(SlowHour()) && Paced(PLAIN, SlowHour())
  {
    var h := SlowHour();
    Backoff.DefaultDelays();
    forall k | 0 <= k < |h| - 1
      ensures Begins(h[k + 1]) - Ends(h[k]) >= Backoff.DEFAULT.Delay(Streak(PLAIN, h, k + 1))
    {
      SlowHourSurvives(k + 1);
    }
  }

  /** Fifty-five restarts in an hour is what the default policy allows, and no fewer. */
  lemma FiftyFiveAnHourIsExact(bound: nat)
    ensures NeverMoreThan(PLAIN, bound) <==> bound >= 55
  {
    if bound >= 55 {
      assert Most(PLAIN) == 55;
      forall h: seq<Round>, n: nat, t: int | Happens(PLAIN, h, n) ensures RetriesAt(PLAIN, h, n, t) <= bound {
        RetriesInAnyWindow(PLAIN, h, n, t);
      }
    } else {
      BusyHourIsPaced();
      BusyHourSurvives(55);
      BusyHourCounts(55);
      assert Happens(PLAIN, BusyHour(), 55) && RetriesAt(PLAIN, BusyHour(), 55, D.HOUR - 1) > bound;
    }
  }

  /** No more than ten restarts in an hour: true of every hour with at most k failed launches iff k is zero. */
  lemma TenAnHourExactlyWhenNoLaunchFails(k: nat)
    ensures CeilingHolds(PLAIN, k) <==> k == 0
  {
    if k == 0 {
      CeilingHoldsWithoutFailedLaunches(PLAIN);
    } else {
      SlowHourIsPaced();
      SlowHourSurvives(11);
      assert Happens(PLAIN, SlowHour(), 11) && RetriesAt(PLAIN, SlowHour(), 11, D.HOUR - 1) > 10;
    }
  }
}
