/**
 * The agents and the control plane exchanging requests, one atomic step of
 * either side at a time: internal/agent/report.go, internal/controlplane/
 * controlplane.go, internal/server/agent.go and auth.go, internal/store/tokens.go.
 *
 * A reporter has one request outstanding, but it can give up on it while the
 * server still works on it, so several requests of a runner can be in progress.
 */
module Protocol {
  import opened Options
  import opened Credentials

  datatype Kind = Beat | Result | Events

  /** How far the server is with a request. */
  datatype Progress =
    | Arrived
    | Authenticated
    | Checked(due: bool)                // the age query has been answered
    | Finished(rotated: Option<Token>)  // the reply is written
    | Rejected

  datatype Request = Request(runner: Runner, kind: Kind, token: Token, progress: Progress)

  /** What an agent's reporter is doing; `left` counts commands whose results are still to be sent. */
  datatype Phase =
    | Resting
    | AwaitingBeat(id: nat)
    | Reporting(left: nat)
    | AwaitingResult(id: nat, left: nat)
    | AwaitingEvents(id: nat)
    | Halted

  datatype Agent = Agent(token: Token, phase: Phase)

  /** `latest` remembers the last credential issued to each runner. */
  datatype System = System(
    rows: Table,
    agents: map<Runner, Agent>,
    requests: map<nat, Request>,
    nextId: nat,
    latest: map<Runner, Token>
  )

  const START: System := System(map[], map[], map[], 0, map[])

  datatype Step =
    | Enroll(r: Runner, t: Token, now: int)
    | SendBeat(r: Runner)
    | SendEvents(r: Runner)
    | SendResult(r: Runner)
    | DoneReporting(r: Runner)
    | Authenticating(id: nat)
    | Checking(id: nat, now: int)
    | Rotating(id: nat, t: Token, now: int)
    | Replying(id: nat)     // with no new credential: none is due, or the rotation failed
    | Delivering(id: nat, commands: nat)
    | GivingUp(r: Runner)   // the request timed out, or its reply was lost
    | Dropping(id: nat)     // the network or the server loses the request

  predicate Awaits(p: Phase, id: nat) {
    (p.AwaitingBeat? || p.AwaitingResult? || p.AwaitingEvents?) && p.id == id
  }

  /** What a reporter does when a request of its came to nothing. */
  function Unanswered(p: Phase): Phase {
    match p
    case AwaitingResult(_, left) => Reporting(left)
    case _ => Resting
  }

  /** What it does with the reply: only a refused heartbeat ends reporting. */
  function Answered(a: Agent, q: Request, commands: nat): Agent {
    match a.phase
    case AwaitingBeat(_) =>
      if q.progress.Rejected? then a.(phase := Halted)
      else if q.progress.Finished? && q.progress.rotated.Some? then Agent(q.progress.rotated.value, Reporting(commands))
      else a.(phase := Reporting(commands))
    case _ => a.(phase := Unanswered(a.phase))
  }

  ghost predicate Enabled(s: System, step: Step) {
    match step
    case Enroll(r, t, _) => r !in s.agents && t !in s.rows
    case SendBeat(r) => r in s.agents && s.agents[r].phase.Resting?
    case SendEvents(r) => r in s.agents && s.agents[r].phase.Resting?
    case SendResult(r) => r in s.agents && s.agents[r].phase.Reporting? && s.agents[r].phase.left > 0
    case DoneReporting(r) => r in s.agents && s.agents[r].phase == Reporting(0)
    case Authenticating(id) => id in s.requests && s.requests[id].progress.Arrived?
    case Checking(id, _) => id in s.requests && s.requests[id].progress.Authenticated? && s.requests[id].kind.Beat?
    case Rotating(id, t, _) => id in s.requests && s.requests[id].progress == Checked(true) && t !in s.rows
    case Replying(id) =>
      id in s.requests && (s.requests[id].progress.Authenticated? || s.requests[id].progress.Checked?)
    case Delivering(id, _) =>
      && id in s.requests && (s.requests[id].progress.Finished? || s.requests[id].progress.Rejected?)
      && s.requests[id].runner in s.agents && Awaits(s.agents[s.requests[id].runner].phase, id)
    case GivingUp(r) =>
      && r in s.agents
      && (s.agents[r].phase.AwaitingBeat? || s.agents[r].phase.AwaitingResult? || s.agents[r].phase.AwaitingEvents?)
    case Dropping(id) => id in s.requests
  }

  function Send(s: System, r: Runner, kind: Kind, phase: Phase): System
    requires r in s.agents
  {
    s.(agents := s.agents[r := s.agents[r].(phase := phase)],
       requests := s.requests[s.nextId := Request(r, kind, s.agents[r].token, Arrived)],
       nextId := s.nextId + 1)
  }

  function Advance(s: System, id: nat, p: Progress): System
    requires id in s.requests
  {
    s.(requests := s.requests[id := s.requests[id].(progress := p)])
  }

  function Discard(s: System, id: nat): System { s.(requests := s.requests - {id}) }

  ghost function Apply(s: System, step: Step, maxAge: int): System
    requires Enabled(s, step)
  {
    match step
    case Enroll(r, t, now) =>
      s.(rows := Issue(s.rows, r, t, now), latest := s.latest[r := t], agents := s.agents[r := Agent(t, Resting)])
    case SendBeat(r) => Send(s, r, Beat, AwaitingBeat(s.nextId))
    case SendEvents(r) => Send(s, r, Events, AwaitingEvents(s.nextId))
    case SendResult(r) => Send(s, r, Result, AwaitingResult(s.nextId, s.agents[r].phase.left - 1))
    case DoneReporting(r) => s.(agents := s.agents[r := s.agents[r].(phase := Resting)])
    case Authenticating(id) =>
      Advance(s, id, if Authenticate(s.rows, s.requests[id].token).Some? then Authenticated else Rejected)
    case Checking(id, now) => Advance(s, id, Checked(DueForRotation(s.rows, s.requests[id].runner, maxAge, now)))
    case Rotating(id, t, now) =>
      var r := s.requests[id].runner;
      Advance(s, id, Finished(Some(t))).(rows := Issue(s.rows, r, t, now), latest := s.latest[r := t])
    case Replying(id) => Advance(s, id, Finished(None))
    case Delivering(id, commands) =>
      var r := s.requests[id].runner;
      Discard(s, id).(agents := s.agents[r := Answered(s.agents[r], s.requests[id], commands)])
    case GivingUp(r) => s.(agents := s.agents[r := s.agents[r].(phase := Unanswered(s.agents[r].phase))])
    case Dropping(id) => Discard(s, id)
  }

  /** The system after the first n steps, when each was possible in its turn. */
  ghost function After(steps: seq<Step>, n: nat, maxAge: int): Option<System>
    requires n <= |steps|
  {
    if n == 0 then Some(START)
    else
      var s := After(steps, n - 1, maxAge);
      if s.Some? && Enabled(s.value, steps[n - 1]) then Some(Apply(s.value, steps[n - 1], maxAge)) else None
  }

  // The invariant, one runner at a time

  /** The reply an agent is waiting for carries this credential. */
  predicate InReply(s: System, a: Agent, t: Token) {
    a.phase.AwaitingBeat? && a.phase.id in s.requests && s.requests[a.phase.id].progress == Finished(Some(t))
  }

  ghost predicate RequestInv(s: System, id: nat)
    requires id in s.requests
  {
    var q := s.requests[id];
    && id < s.nextId && q.runner in s.agents && q.token in s.rows && s.rows[q.token].runner == q.runner
    && (q.progress.Checked? ==> q.kind.Beat?)
    && (q.progress.Finished? && q.progress.rotated.Some? ==>
          && q.progress.rotated.value in s.rows && s.rows[q.progress.rotated.value].runner == q.runner
          && q.progress.rotated.value != q.token && q.kind.Beat?)
  }

  /** Of the credentials of a runner only the latest is live, and nothing refuses an agent that has it. */
  ghost predicate AgentInv(s: System, r: Runner)
    requires r in s.agents
  {
    var a := s.agents[r];
    && r in s.latest && OnlyLive(s.rows, r, s.latest[r])
    && a.token in s.rows && s.rows[a.token].runner == r
    && (forall id: nat :: Awaits(a.phase, id) ==> id < s.nextId)
    && (forall id :: Awaits(a.phase, id) && id in s.requests ==> AwaitedInv(s, r, id))
    && (a.phase.Halted? ==> s.latest[r] != a.token)
  }

  ghost predicate AwaitedInv(s: System, r: Runner, id: nat)
    requires r in s.agents && r in s.latest && id in s.requests
  {
    var a, q := s.agents[r], s.requests[id];
    && q.runner == r && q.token == a.token && (a.phase.AwaitingBeat? <==> q.kind.Beat?)
    && (q.progress.Rejected? || (q.progress.Finished? && q.progress.rotated.Some?) ==> s.latest[r] != a.token)
  }

  ghost predicate Inv(s: System) {
    && (forall id :: id in s.requests ==> RequestInv(s, id))
    && (forall r :: r in s.agents ==> AgentInv(s, r))
  }

  lemma SendKeepsInv(s: System, r: Runner, kind: Kind, phase: Phase)
    requires Inv(s) && r in s.agents && (s.agents[r].phase.Resting? || s.agents[r].phase.Reporting?)
    requires Awaits(phase, s.nextId) && (phase.AwaitingBeat? <==> kind.Beat?)
    ensures Inv(Send(s, r, kind, phase))
  {
    var after := Send(s, r, kind, phase);
    assert AgentInv(s, r);
    forall k | k in after.requests ensures RequestInv(after, k) {
      assert k in s.requests ==> RequestInv(s, k);
    }
    forall q | q in after.agents ensures AgentInv(after, q) {
      assert AgentInv(s, q);
    }
  }

  lemma AdvanceKeepsInv(s: System, id: nat, p: Progress)
    requires Inv(s) && id in s.requests
    requires !s.requests[id].progress.Finished? && !s.requests[id].progress.Rejected?
    requires (p.Finished? ==> p.rotated.None?) && (p.Checked? ==> s.requests[id].kind.Beat?)
    requires p.Rejected? ==> Authenticate(s.rows, s.requests[id].token).None?
    ensures Inv(Advance(s, id, p))
  {
    var after := Advance(s, id, p);
    forall k | k in after.requests ensures RequestInv(after, k) {
      assert RequestInv(s, k);
    }
    forall r | r in after.agents ensures AgentInv(after, r) {
      assert AgentInv(s, r) && LiveFor(s.rows, r, s.latest[r]);
    }
  }

  lemma EnrollKeepsInv(s: System, r: Runner, t: Token, now: int, maxAge: int)
    requires Inv(s) && Enabled(s, Enroll(r, t, now))
    ensures Inv(Apply(s, Enroll(r, t, now), maxAge))
  {
    var after := Apply(s, Enroll(r, t, now), maxAge);
    IssueLeavesOneLive(s.rows, r, t, now);
    forall id | id in after.requests ensures RequestInv(after, id) {
      assert RequestInv(s, id);
    }
    forall q | q in after.agents ensures AgentInv(after, q) {
      assert q != r ==> AgentInv(s, q);
    }
  }

  lemma RotateKeepsAgents(s: System, id: nat, t: Token, now: int, maxAge: int)
    requires Inv(s) && Enabled(s, Rotating(id, t, now))
    ensures var after := Apply(s, Rotating(id, t, now), maxAge);
            forall q :: q in after.agents ==> AgentInv(after, q)
  {
    var after, r := Apply(s, Rotating(id, t, now), maxAge), s.requests[id].runner;
    IssueLeavesOneLive(s.rows, r, t, now);
    forall q | q in after.agents ensures AgentInv(after, q) {
      assert AgentInv(s, q);
    }
  }

  lemma RotateKeepsInv(s: System, id: nat, t: Token, now: int, maxAge: int)
    requires Inv(s) && Enabled(s, Rotating(id, t, now))
    ensures Inv(Apply(s, Rotating(id, t, now), maxAge))
  {
    var after := Apply(s, Rotating(id, t, now), maxAge);
    RotateKeepsAgents(s, id, t, now, maxAge);
    IssueLeavesOneLive(s.rows, s.requests[id].runner, t, now);
    forall k | k in after.requests ensures RequestInv(after, k) {
      assert RequestInv(s, k) && RequestInv(s, id);
    }
  }

  lemma DeliverKeepsInv(s: System, id: nat, commands: nat, maxAge: int)
    requires Inv(s) && Enabled(s, Delivering(id, commands))
    ensures Inv(Apply(s, Delivering(id, commands), maxAge))
  {
    var after, r := Apply(s, Delivering(id, commands), maxAge), s.requests[id].runner;
    assert RequestInv(s, id) && AgentInv(s, r);
    forall k | k in after.requests ensures RequestInv(after, k) {
      assert RequestInv(s, k);
    }
    forall q | q in after.agents ensures AgentInv(after, q) {
      assert AgentInv(s, q);
    }
  }

  lemma LossKeepsInv(s: System, step: Step, maxAge: int)
    requires Inv(s) && Enabled(s, step) && (step.GivingUp? || step.Dropping? || step.DoneReporting?)
    ensures Inv(Apply(s, step, maxAge))
  {
    var after := Apply(s, step, maxAge);
    forall k | k in after.requests ensures RequestInv(after, k) {
      assert RequestInv(s, k);
    }
    forall q | q in after.agents ensures AgentInv(after, q) {
      assert AgentInv(s, q);
    }
  }

  lemma SendStepKeepsInv(s: System, step: Step, maxAge: int)
    requires Inv(s) && Enabled(s, step) && (step.SendBeat? || step.SendEvents? || step.SendResult?)
    ensures Inv(Apply(s, step, maxAge))
  {
    match step
    case SendBeat(r) => SendKeepsInv(s, r, Beat, AwaitingBeat(s.nextId));
    case SendEvents(r) => SendKeepsInv(s, r, Events, AwaitingEvents(s.nextId));
    case SendResult(r) => SendKeepsInv(s, r, Result, AwaitingResult(s.nextId, s.agents[r].phase.left - 1));
  }

  lemma AdvanceStepKeepsInv(s: System, step: Step, maxAge: int)
    requires Inv(s) && Enabled(s, step) && (step.Authenticating? || step.Checking? || step.Replying?)
    ensures Inv(Apply(s, step, maxAge))
  {
    match step
    case Authenticating(id) =>
      AdvanceKeepsInv(s, id, if Authenticate(s.rows, s.requests[id].token).Some? then Authenticated else Rejected);
    case Checking(id, now) =>
      AdvanceKeepsInv(s, id, Checked(DueForRotation(s.rows, s.requests[id].runner, maxAge, now)));
    case Replying(id) => AdvanceKeepsInv(s, id, Finished(None));
  }

  lemma InvStep(s: System, step: Step, maxAge: int)
    requires Inv(s) && Enabled(s, step)
    ensures Inv(Apply(s, step, maxAge))
  {
    if step.SendBeat? || step.SendEvents? || step.SendResult? {
      SendStepKeepsInv(s, step, maxAge);
    } else if step.Authenticating? || step.Checking? || step.Replying? {
      AdvanceStepKeepsInv(s, step, maxAge);
    } else if step.GivingUp? || step.Dropping? || step.DoneReporting? {
      LossKeepsInv(s, step, maxAge);
    } else if step.Enroll? {
      EnrollKeepsInv(s, step.r, step.t, step.now, maxAge);
    } else if step.Rotating? {
      RotateKeepsInv(s, step.id, step.t, step.now, maxAge);
    } else {
      DeliverKeepsInv(s, step.id, step.commands, maxAge);
    }
  }

  lemma {:induction false} InvAlways(steps: seq<Step>, n: nat, maxAge: int)
    requires n <= |steps| && After(steps, n, maxAge).Some?
    ensures Inv(After(steps, n, maxAge).value)
  {
    if n > 0 {
      InvAlways(steps, n - 1, maxAge);
      InvStep(After(steps, n - 1, maxAge).value, steps[n - 1], maxAge);
    }
  }
}
