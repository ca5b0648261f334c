/**
 * What a lost rotation does to an agent, and what nothing else does: whether an
 * agent has its runner's live credential, over every run of module Protocol.
 */
module LostRotations {
  import opened Options
  import opened Credentials
  import opened Protocol
  import D = Durations

  /** The agent has the latest credential, or is waiting for the reply that carries it. */
  predicate Reached(s: System, r: Runner)
    requires r in s.agents && r in s.latest
  {
    s.latest[r] == s.agents[r].token || InReply(s, s.agents[r], s.latest[r])
  }

  predicate RotatesFor(s: System, step: Step, r: Runner) {
    step.Rotating? && step.id in s.requests && s.requests[step.id].runner == r
  }

  predicate AwaitedBy(s: System, r: Runner, id: nat) { r in s.agents && Awaits(s.agents[r].phase, id) }

  /**
   * The step loses a rotation: it happens in a heartbeat the agent no longer
   * waits for, or the reply with it is what the agent gives up on or the network drops.
   */
  predicate Loses(s: System, step: Step, r: Runner) {
    if step.Rotating? then RotatesFor(s, step, r) && !AwaitedBy(s, r, step.id)
    else
      && r in s.agents && r in s.latest && InReply(s, s.agents[r], s.latest[r])
      && (step == GivingUp(r) || (step.Dropping? && AwaitedBy(s, r, step.id)))
  }

  /** A rotation whose reply the agent is waiting for. */
  predicate Makes(s: System, step: Step, r: Runner) { RotatesFor(s, step, r) && AwaitedBy(s, r, step.id) }

  ghost predicate LosesAt(steps: seq<Step>, k: nat, maxAge: int, r: Runner)
    requires k < |steps|
  {
    After(steps, k, maxAge).Some? && Loses(After(steps, k, maxAge).value, steps[k], r)
  }

  ghost predicate MakesAt(steps: seq<Step>, k: nat, maxAge: int, r: Runner)
    requires k < |steps|
  {
    After(steps, k, maxAge).Some? && Makes(After(steps, k, maxAge).value, steps[k], r)
  }

  /** The latest rotation for the runner, if any, was lost. */
  ghost predicate Lost(steps: seq<Step>, n: nat, maxAge: int, r: Runner)
    requires n <= |steps|
  {
    n > 0 && (LosesAt(steps, n - 1, maxAge, r) || (!MakesAt(steps, n - 1, maxAge, r) && Lost(steps, n - 1, maxAge, r)))
  }

  /** Step k loses a rotation, and none after it up to n makes one. */
  ghost predicate LatestLoss(steps: seq<Step>, k: nat, n: nat, maxAge: int, r: Runner)
    requires n <= |steps|
  {
    k < n && LosesAt(steps, k, maxAge, r) && forall j :: k < j < n ==> !MakesAt(steps, j, maxAge, r)
  }

  lemma {:induction false} LostHasALoss(steps: seq<Step>, n: nat, maxAge: int, r: Runner) returns (k: nat)
    requires n <= |steps| && Lost(steps, n, maxAge, r)
    ensures LatestLoss(steps, k, n, maxAge, r)
  {
    if LosesAt(steps, n - 1, maxAge, r) {
      k := n - 1;
    } else {
      k := LostHasALoss(steps, n - 1, maxAge, r);
    }
  }

  lemma {:induction false} LossLasts(steps: seq<Step>, k: nat, n: nat, maxAge: int, r: Runner)
    requires n <= |steps| && LatestLoss(steps, k, n, maxAge, r)
    ensures Lost(steps, n, maxAge, r)
    decreases n
  {
    if k < n - 1 { LossLasts(steps, k, n - 1, maxAge, r); }
  }

  /** Told at once: some step lost a rotation, and none after it made one that was waited for. */
  lemma LostMeansTheLatestWas(steps: seq<Step>, n: nat, maxAge: int, r: Runner)
    requires n <= |steps|
    ensures Lost(steps, n, maxAge, r) <==> exists k :: LatestLoss(steps, k, n, maxAge, r)
  {
    if Lost(steps, n, maxAge, r) {
      var k := LostHasALoss(steps, n, maxAge, r);
    } else {
      forall k ensures !LatestLoss(steps, k, n, maxAge, r) {
        if LatestLoss(steps, k, n, maxAge, r) { LossLasts(steps, k, n, maxAge, r); }
      }
    }
  }

  // One step

  lemma RotationReaches(s: System, r: Runner, id: nat, t: Token, now: int, maxAge: int)
    requires Inv(s) && Enabled(s, Rotating(id, t, now)) && r in s.agents
    ensures var after, step := Apply(s, Rotating(id, t, now), maxAge), Rotating(id, t, now);
            && r in after.agents && r in after.latest && r in s.latest
            && Reached(after, r) == (Makes(s, step, r) || (!Loses(s, step, r) && Reached(s, r)))
  {
    assert AgentInv(s, r) && RequestInv(s, id);
  }

  lemma DeliveryKeepsReached(s: System, r: Runner, id: nat, commands: nat, maxAge: int)
    requires Inv(s) && Enabled(s, Delivering(id, commands)) && r in s.agents
    ensures var after := Apply(s, Delivering(id, commands), maxAge);
            r in after.agents && r in after.latest && r in s.latest && Reached(after, r) == Reached(s, r)
  {
    assert AgentInv(s, r) && RequestInv(s, id) && AgentInv(s, s.requests[id].runner);
  }

  lemma LossReaches(s: System, r: Runner, step: Step, maxAge: int)
    requires Inv(s) && Enabled(s, step) && (step.GivingUp? || step.Dropping?) && r in s.agents
    ensures var after := Apply(s, step, maxAge);
            && r in after.agents && r in after.latest && r in s.latest
            && Reached(after, r) == (!Loses(s, step, r) && Reached(s, r))
  {
    assert AgentInv(s, r);
    if s.agents[r].phase.AwaitingBeat? && s.agents[r].phase.id in s.requests {
      assert AwaitedInv(s, r, s.agents[r].phase.id);
    }
  }

  lemma OthersKeepReached(s: System, r: Runner, step: Step, maxAge: int)
    requires Inv(s) && Enabled(s, step) && r in s.agents
    requires !step.Rotating? && !step.Delivering? && !step.GivingUp? && !step.Dropping?
    ensures var after := Apply(s, step, maxAge);
            r in after.agents && r in after.latest && r in s.latest && Reached(after, r) == Reached(s, r)
  {
    assert AgentInv(s, r);
  }

  lemma ReachedStep(s: System, r: Runner, step: Step, maxAge: int)
    requires Inv(s) && Enabled(s, step) && r in s.agents
    ensures var after := Apply(s, step, maxAge);
            && r in after.agents && r in after.latest && r in s.latest
            && Reached(after, r) == (Makes(s, step, r) || (!Loses(s, step, r) && Reached(s, r)))
  {
    if step.Rotating? {
      RotationReaches(s, r, step.id, step.t, step.now, maxAge);
    } else if step.Delivering? {
      DeliveryKeepsReached(s, r, step.id, step.commands, maxAge);
    } else if step.GivingUp? || step.Dropping? {
      LossReaches(s, r, step, maxAge);
    } else {
      OthersKeepReached(s, r, step, maxAge);
    }
  }

  // Over runs

  lemma {:induction false} NothingLostBeforeEnrolling(steps: seq<Step>, n: nat, maxAge: int, r: Runner)
    requires n <= |steps| && After(steps, n, maxAge).Some? && r !in After(steps, n, maxAge).value.agents
    ensures !Lost(steps, n, maxAge, r)
  {
    if n > 0 {
      InvAlways(steps, n - 1, maxAge);
      var s := After(steps, n - 1, maxAge).value;
      assert steps[n - 1].Rotating? ==> RequestInv(s, steps[n - 1].id);
      NothingLostBeforeEnrolling(steps, n - 1, maxAge, r);
    }
  }

  lemma {:induction false} ReachedExactlyUnlessLost(steps: seq<Step>, n: nat, maxAge: int, r: Runner)
    requires n <= |steps| && After(steps, n, maxAge).Some? && r in After(steps, n, maxAge).value.agents
    ensures r in After(steps, n, maxAge).value.latest
    ensures Reached(After(steps, n, maxAge).value, r) <==> !Lost(steps, n, maxAge, r)
  {
    if n > 0 {
      InvAlways(steps, n - 1, maxAge);
      var s, step := After(steps, n - 1, maxAge).value, steps[n - 1];
      if r in s.agents {
        ReachedExactlyUnlessLost(steps, n - 1, maxAge, r);
        ReachedStep(s, r, step, maxAge);
      } else {
        NothingLostBeforeEnrolling(steps, n - 1, maxAge, r);
        assert step.Enroll? && step.r == r;
      }
    }
  }

  /** There is never a moment with two live credentials for a runner, or none. */
  lemma AlwaysOneLiveCredential(steps: seq<Step>, n: nat, maxAge: int, r: Runner)
    requires n <= |steps| && After(steps, n, maxAge).Some? && r in After(steps, n, maxAge).value.agents
    ensures exists t :: OnlyLive(After(steps, n, maxAge).value.rows, r, t)
  {
    var s := After(steps, n, maxAge).value;
    InvAlways(steps, n, maxAge);
    assert AgentInv(s, r) && OnlyLive(s.rows, r, s.latest[r]);
  }

  /**
   * After every run, whatever the network did: the agent has the runner's one
   * live credential, or the one reply it is waiting for carries it, exactly
   * unless the latest rotation was lost. An agent nothing was lost to has not
   * stopped reporting.
   */
  lemma CredentialReachesTheAgent(steps: seq<Step>, n: nat, maxAge: int, r: Runner, t: Token)
    requires n <= |steps| && After(steps, n, maxAge).Some?
    requires var s := After(steps, n, maxAge).value; r in s.agents && LiveFor(s.rows, r, t)
    ensures var s := After(steps, n, maxAge).value;
            && OnlyLive(s.rows, r, t)
            && (s.agents[r].token == t || InReply(s, s.agents[r], t) <==> !Lost(steps, n, maxAge, r))
            && (s.agents[r].phase.Halted? ==> Lost(steps, n, maxAge, r))
  {
    InvAlways(steps, n, maxAge);
    ReachedExactlyUnlessLost(steps, n, maxAge, r);
    assert AgentInv(After(steps, n, maxAge).value, r);
  }

  lemma RefusedUnlessReached(s: System, r: Runner, id: nat, maxAge: int)
    requires Inv(s) && Enabled(s, Authenticating(id)) && AwaitedBy(s, r, id)
    ensures r in s.latest
    ensures Apply(s, Authenticating(id), maxAge).requests[id].progress ==
            if Reached(s, r) then Authenticated else Rejected
  {
    assert AgentInv(s, r) && RequestInv(s, id) && AwaitedInv(s, r, id);
    assert LiveFor(s.rows, r, s.agents[r].token) <==> s.agents[r].token == s.latest[r];
  }

  /**
   * Whatever an agent sends and waits for, heartbeat, events or result, is
   * refused exactly if the latest rotation was lost.
   */
  lemma RefusedExactlyWhenLost(steps: seq<Step>, n: nat, maxAge: int, r: Runner, id: nat)
    requires n <= |steps| && After(steps, n, maxAge).Some?
    requires Enabled(After(steps, n, maxAge).value, Authenticating(id))
    requires AwaitedBy(After(steps, n, maxAge).value, r, id)
    ensures Apply(After(steps, n, maxAge).value, Authenticating(id), maxAge).requests[id].progress ==
            if Lost(steps, n, maxAge, r) then Rejected else Authenticated
  {
    InvAlways(steps, n, maxAge);
    ReachedExactlyUnlessLost(steps, n, maxAge, r);
    RefusedUnlessReached(After(steps, n, maxAge).value, r, id, maxAge);
  }

  /** After every run: a heartbeat finds a rotation due exactly when the runner's live credential is old enough. */
  lemma RotationIsDueExactlyWhenOld(steps: seq<Step>, n: nat, maxAge: int, id: nat, now: int, t: Token)
    requires n <= |steps| && After(steps, n, maxAge).Some?
    requires Enabled(After(steps, n, maxAge).value, Checking(id, now))
    requires var s := After(steps, n, maxAge).value; LiveFor(s.rows, s.requests[id].runner, t)
    ensures var s := After(steps, n, maxAge).value;
            Apply(s, Checking(id, now), maxAge).requests[id].progress ==
            Checked(now - s.rows[t].issuedAt >= if maxAge <= 0 then 24 * D.HOUR else maxAge)
  {
    var s := After(steps, n, maxAge).value;
    InvAlways(steps, n, maxAge);
    var r := s.requests[id].runner;
    assert RequestInv(s, id) && AgentInv(s, r);
    DueExactlyWhenOld(s.rows, r, t, maxAge, now);
  }

  /** Only the answer to a heartbeat that refuses it ends reporting. */
  lemma HaltsExactlyOnARefusedHeartbeat(s: System, r: Runner, step: Step, maxAge: int)
    requires Inv(s) && Enabled(s, step) && r in s.agents && !s.agents[r].phase.Halted?
    ensures r in Apply(s, step, maxAge).agents
    ensures Apply(s, step, maxAge).agents[r].phase.Halted? <==>
            && step.Delivering? && s.agents[r].phase == AwaitingBeat(step.id)
            && s.requests[step.id].progress.Rejected?
  {
    assert AgentInv(s, r);
    if step.Delivering? {
      assert RequestInv(s, step.id) && AgentInv(s, s.requests[step.id].runner);
      if Awaits(s.agents[r].phase, step.id) { assert AwaitedInv(s, r, step.id); }
    }
  }

  // From a heartbeat's answer to the last result of the commands it brings

  /** The agent waits for an answer that is written, or is sending the results of the commands it brought. */
  predicate Answered(s: System, r: Runner) {
    && r in s.agents
    && match s.agents[r].phase
       case AwaitingBeat(id) => id in s.requests && s.requests[id].progress.Finished?
       case Reporting(_) => true
       case AwaitingResult(_, _) => true
       case _ => false
  }

  ghost predicate AnsweredAt(steps: seq<Step>, k: nat, maxAge: int, r: Runner)
    requires k <= |steps|
  {
    After(steps, k, maxAge).Some? && Answered(After(steps, k, maxAge).value, r)
  }

  ghost predicate RotatesAt(steps: seq<Step>, k: nat, maxAge: int, r: Runner)
    requires k < |steps|
  {
    After(steps, k, maxAge).Some? && RotatesFor(After(steps, k, maxAge).value, steps[k], r)
  }

  /** An answered agent waits for no heartbeat that can rotate, so any rotation is lost, and nothing else is. */
  lemma AnsweredLosesRotations(s: System, r: Runner, step: Step, maxAge: int)
    requires Inv(s) && Enabled(s, step) && Answered(s, r) && Answered(Apply(s, step, maxAge), r)
    ensures Loses(s, step, r) <==> RotatesFor(s, step, r)
    ensures !Makes(s, step, r)
  {
    if RotatesFor(s, step, r) {
      assert RequestInv(s, step.id) && AgentInv(s, r);
      assert AwaitedBy(s, r, step.id) ==> AwaitedInv(s, r, step.id);
    }
  }

  lemma AnsweredLosesAt(steps: seq<Step>, k: nat, maxAge: int, r: Runner)
    requires k < |steps| && AnsweredAt(steps, k, maxAge, r) && AnsweredAt(steps, k + 1, maxAge, r)
    ensures LosesAt(steps, k, maxAge, r) <==> RotatesAt(steps, k, maxAge, r)
    ensures !MakesAt(steps, k, maxAge, r)
  {
    InvAlways(steps, k, maxAge);
    AnsweredLosesRotations(After(steps, k, maxAge).value, r, steps[k], maxAge);
  }

  lemma {:induction false} EveryRotationIsLost(steps: seq<Step>, m: nat, n: nat, maxAge: int, r: Runner)
    requires m <= n <= |steps|
    requires forall k :: m <= k < n ==> (LosesAt(steps, k, maxAge, r) <==> RotatesAt(steps, k, maxAge, r))
    requires forall k :: m <= k < n ==> !MakesAt(steps, k, maxAge, r)
    ensures Lost(steps, n, maxAge, r) <==>
            Lost(steps, m, maxAge, r) || exists k :: m <= k < n && RotatesAt(steps, k, maxAge, r)
    decreases n
  {
    if m < n { EveryRotationIsLost(steps, m, n - 1, maxAge, r); }
  }

  lemma LostSinceTheAnswer(steps: seq<Step>, m: nat, n: nat, maxAge: int, r: Runner)
    requires m <= n <= |steps| && forall k :: m <= k <= n ==> AnsweredAt(steps, k, maxAge, r)
    ensures Lost(steps, n, maxAge, r) <==>
            Lost(steps, m, maxAge, r) || exists k :: m <= k < n && RotatesAt(steps, k, maxAge, r)
  {
    forall k | m <= k < n
      ensures LosesAt(steps, k, maxAge, r) <==> RotatesAt(steps, k, maxAge, r)
      ensures !MakesAt(steps, k, maxAge, r)
    {
      assert AnsweredAt(steps, k, maxAge, r) && AnsweredAt(steps, k + 1, maxAge, r);
      AnsweredLosesAt(steps, k, maxAge, r);
    }
    EveryRotationIsLost(steps, m, n, maxAge, r);
  }

  /**
   * From the moment a heartbeat's answer is written until the results of the
   * commands it brings are in, what the agent sends authenticates exactly if the
   * latest rotation was not lost by then and none has happened since.
   */
  lemma ResultsAuthenticate(steps: seq<Step>, m: nat, n: nat, maxAge: int, r: Runner, id: nat)
    requires m <= n <= |steps| && forall k :: m <= k <= n ==> AnsweredAt(steps, k, maxAge, r)
    requires After(steps, n, maxAge).Some?
    requires Enabled(After(steps, n, maxAge).value, Authenticating(id))
    requires AwaitedBy(After(steps, n, maxAge).value, r, id)
    ensures Apply(After(steps, n, maxAge).value, Authenticating(id), maxAge).requests[id].progress == Authenticated <==>
            !Lost(steps, m, maxAge, r) && !exists k :: m <= k < n && RotatesAt(steps, k, maxAge, r)
  {
    LostSinceTheAnswer(steps, m, n, maxAge, r);
    RefusedExactlyWhenLost(steps, n, maxAge, r, id);
  }

  /**
   * In particular in the beat of a rotation: a result authenticates exactly
   * unless a heartbeat the agent gave up on rotates once more before.
   */
  lemma ResultsOfARotatingBeat(steps: seq<Step>, m: nat, n: nat, maxAge: int, r: Runner, id: nat)
    requires m < n <= |steps| && MakesAt(steps, m, maxAge, r)
    requires forall k :: m < k <= n ==> AnsweredAt(steps, k, maxAge, r)
    requires After(steps, n, maxAge).Some?
    requires Enabled(After(steps, n, maxAge).value, Authenticating(id))
    requires AwaitedBy(After(steps, n, maxAge).value, r, id)
    ensures Apply(After(steps, n, maxAge).value, Authenticating(id), maxAge).requests[id].progress == Authenticated <==>
            !exists k :: m < k < n && RotatesAt(steps, k, maxAge, r)
  {
    MadeIsNotLost(steps, m, maxAge, r);
    ResultsAuthenticate(steps, m + 1, n, maxAge, r, id);
  }

  lemma MadeIsNotLost(steps: seq<Step>, m: nat, maxAge: int, r: Runner)
    requires m < |steps| && MakesAt(steps, m, maxAge, r)
    ensures !Lost(steps, m + 1, maxAge, r)
  {
  }

  // After a loss

  /** A heartbeat that got past authentication in time can still rotate, and answer with it. */
  predicate CanStillRotate(s: System, r: Runner)
    requires r in s.agents
  {
    var a := s.agents[r];
    && a.phase.AwaitingBeat? && a.phase.id in s.requests
    && (s.requests[a.phase.id].progress.Authenticated? || s.requests[a.phase.id].progress.Checked?)
  }

  ghost predicate Stranded(s: System, r: Runner) {
    r in s.agents && r in s.latest && !Reached(s, r) && !CanStillRotate(s, r)
  }

  lemma StrandedStep(s: System, r: Runner, step: Step, maxAge: int)
    requires Inv(s) && Enabled(s, step) && Stranded(s, r)
    ensures Stranded(Apply(s, step, maxAge), r)
  {
    assert AgentInv(s, r) && !LiveFor(s.rows, r, s.agents[r].token);
    ReachedStep(s, r, step, maxAge);
    if step.Rotating? || step.Delivering? || step.Authenticating? { assert RequestInv(s, step.id); }
    if s.agents[r].phase.AwaitingBeat? && s.agents[r].phase.id in s.requests {
      assert AwaitedInv(s, r, s.agents[r].phase.id);
    }
  }

  /**
   * Once the latest rotation is lost and no heartbeat is past authentication, it
   * stays lost: nothing the agent or the server does gives it a live credential.
   */
  lemma {:induction false} StrandedForGood(steps: seq<Step>, m: nat, n: nat, maxAge: int, r: Runner)
    requires m <= n <= |steps| && After(steps, n, maxAge).Some? && After(steps, m, maxAge).Some?
    requires r in After(steps, m, maxAge).value.agents
    requires Lost(steps, m, maxAge, r) && !CanStillRotate(After(steps, m, maxAge).value, r)
    ensures Stranded(After(steps, n, maxAge).value, r) && Lost(steps, n, maxAge, r)
    decreases n
  {
    if m == n {
      ReachedExactlyUnlessLost(steps, n, maxAge, r);
    } else {
      StrandedForGood(steps, m, n - 1, maxAge, r);
      InvAlways(steps, n - 1, maxAge);
      StrandedStep(After(steps, n - 1, maxAge).value, r, steps[n - 1], maxAge);
      ReachedExactlyUnlessLost(steps, n, maxAge, r);
    }
  }

  /** Stranded, and waiting for no heartbeat that is past authentication at all. */
  ghost predicate OnlyRefusable(s: System, r: Runner) {
    && Stranded(s, r)
    && (s.agents[r].phase.AwaitingBeat? && s.agents[r].phase.id in s.requests ==>
          var p := s.requests[s.agents[r].phase.id].progress; p.Arrived? || p.Rejected?)
  }

  lemma OnlyRefusableStep(s: System, r: Runner, step: Step, maxAge: int)
    requires Inv(s) && Enabled(s, step) && OnlyRefusable(s, r)
    ensures OnlyRefusable(Apply(s, step, maxAge), r)
  {
    StrandedStep(s, r, step, maxAge);
    assert AgentInv(s, r) && !LiveFor(s.rows, r, s.agents[r].token);
    if s.agents[r].phase.AwaitingBeat? && s.agents[r].phase.id in s.requests {
      assert AwaitedInv(s, r, s.agents[r].phase.id);
    }
  }

  lemma SendingIsRefusable(s: System, r: Runner, maxAge: int)
    requires Inv(s) && Enabled(s, SendBeat(r)) && r in s.latest && !Reached(s, r)
    ensures OnlyRefusable(Apply(s, SendBeat(r), maxAge), r)
  {
    assert AgentInv(s, r);
  }

  lemma {:induction false} RefusableForGood(steps: seq<Step>, m: nat, n: nat, maxAge: int, r: Runner)
    requires m < n <= |steps| && After(steps, n, maxAge).Some? && After(steps, m, maxAge).Some?
    requires r in After(steps, m, maxAge).value.agents && steps[m] == SendBeat(r) && Lost(steps, m, maxAge, r)
    ensures OnlyRefusable(After(steps, n, maxAge).value, r)
    decreases n
  {
    var s := After(steps, n - 1, maxAge).value;
    InvAlways(steps, n - 1, maxAge);
    if m == n - 1 {
      ReachedExactlyUnlessLost(steps, m, maxAge, r);
      SendingIsRefusable(s, r, maxAge);
    } else {
      RefusableForGood(steps, m, n - 1, maxAge, r);
      OnlyRefusableStep(s, r, steps[n - 1], maxAge);
    }
  }

  lemma RefusableIsRefused(s: System, r: Runner, id: nat, commands: nat, maxAge: int)
    requires Inv(s) && OnlyRefusable(s, r) && AwaitedBy(s, r, id)
    ensures Enabled(s, Authenticating(id)) ==> Apply(s, Authenticating(id), maxAge).requests[id].progress == Rejected
    ensures Enabled(s, Delivering(id, commands)) && s.agents[r].phase.AwaitingBeat? ==>
              Apply(s, Delivering(id, commands), maxAge).agents[r].phase == Halted
  {
    assert AgentInv(s, r);
    if Enabled(s, Authenticating(id)) { RefusedUnlessReached(s, r, id, maxAge); }
    if id in s.requests { assert AwaitedInv(s, r, id); }
  }

  /**
   * From the first heartbeat an agent sends after losing a rotation, everything
   * it sends is refused, and the first heartbeat whose answer arrives ends its
   * reporting.
   */
  lemma NextBeatIsRefused(steps: seq<Step>, m: nat, n: nat, maxAge: int, r: Runner, id: nat, commands: nat)
    requires m < n <= |steps| && After(steps, n, maxAge).Some? && After(steps, m, maxAge).Some?
    requires r in After(steps, m, maxAge).value.agents && steps[m] == SendBeat(r) && Lost(steps, m, maxAge, r)
    requires AwaitedBy(After(steps, n, maxAge).value, r, id)
    ensures var s := After(steps, n, maxAge).value;
            && (Enabled(s, Authenticating(id)) ==>
                  Apply(s, Authenticating(id), maxAge).requests[id].progress == Rejected)
            && (Enabled(s, Delivering(id, commands)) && s.agents[r].phase.AwaitingBeat? ==>
                  Apply(s, Delivering(id, commands), maxAge).agents[r].phase == Halted)
  {
    InvAlways(steps, n, maxAge);
    RefusableForGood(steps, m, n, maxAge, r);
    RefusableIsRefused(After(steps, n, maxAge).value, r, id, commands, maxAge);
  }

  // After a refusal

  /** A halted reporter does nothing more. */
  lemma HaltedStep(s: System, r: Runner, step: Step, maxAge: int)
    requires Inv(s) && Enabled(s, step) && r in s.agents && s.agents[r].phase.Halted?
    ensures r in Apply(s, step, maxAge).agents && Apply(s, step, maxAge).agents[r] == s.agents[r]
  {
  }

  /** Nor does it send anything. */
  lemma HaltedSendsNothing(s: System, r: Runner, step: Step, maxAge: int, id: nat)
    requires Enabled(s, step) && r in s.agents && s.agents[r].phase.Halted?
    requires id in Apply(s, step, maxAge).requests && Apply(s, step, maxAge).requests[id].runner == r
    ensures id in s.requests && s.requests[id].runner == r
  {
  }

  /** Over every run: once refused, a reporter changes nothing more and has no request it did not have then. */
  lemma {:induction false} RefusedOnceSilentForGood(steps: seq<Step>, m: nat, n: nat, maxAge: int, r: Runner, id: nat)
    requires m <= n <= |steps| && After(steps, n, maxAge).Some? && After(steps, m, maxAge).Some?
    requires var s := After(steps, m, maxAge).value; r in s.agents && s.agents[r].phase.Halted?
    ensures var s, t := After(steps, m, maxAge).value, After(steps, n, maxAge).value;
            && r in t.agents && t.agents[r] == s.agents[r]
            && (id in t.requests && t.requests[id].runner == r ==> id in s.requests && s.requests[id].runner == r)
    decreases n
  {
    if m < n {
      RefusedOnceSilentForGood(steps, m, n - 1, maxAge, r, id);
      InvAlways(steps, n - 1, maxAge);
      var s := After(steps, n - 1, maxAge).value;
      HaltedStep(s, r, steps[n - 1], maxAge);
      var after := Apply(s, steps[n - 1], maxAge);
      if id in after.requests && after.requests[id].runner == r {
        HaltedSendsNothing(s, r, steps[n - 1], maxAge, id);
      }
    }
  }
}
