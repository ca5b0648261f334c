/**
 * A run in which a command result is refused in the very beat that replaced the
 * agent's credential: the case in which `LostRotations.ResultsAuthenticate` says one is.
 */
module AbandonedBeat {
  import opened Options
  import opened Credentials
  import opened Protocol

  const DAY: int := DEFAULT_LIFETIME

  const FIRST: Table := map[100 := Row(0, false, 0)]
  const HELD: Request := Request(0, Beat, 100, Checked(true))

  ghost predicate Reachable(s: System) {
    exists steps :: After(steps, |steps|, 0) == Some(s)
  }

  lemma {:induction false} SamePrefix(a: seq<Step>, b: seq<Step>, n: nat)
    requires n <= |a| && a <= b
    ensures After(a, n, 0) == After(b, n, 0)
  {
    if n > 0 { SamePrefix(a, b, n - 1); }
  }

  lemma Follow(s: System, step: Step)
    requires Reachable(s) && Enabled(s, step)
    ensures Reachable(Apply(s, step, 0))
  {
    var steps :| After(steps, |steps|, 0) == Some(s);
    SamePrefix(steps, steps + [step], |steps|);
    assert After(steps + [step], |steps + [step]|, 0) == Some(Apply(s, step, 0));
  }

  /** The system before the first rotation, but for what the agent and its requests are up to. */
  function Early(phase: Phase, requests: map<nat, Request>, nextId: nat): System {
    System(FIRST, map[0 := Agent(100, phase)], requests, nextId, map[0 := 100])
  }

  lemma AgentEnrolls()
    ensures Reachable(Early(Resting, map[], 0))
  {
    var none: seq<Step> := [];
    assert After(none, |none|, 0) == Some(START);
    Follow(START, Enroll(0, 100, 0));
    assert Apply(START, Enroll(0, 100, 0), 0) == Early(Resting, map[], 0);
  }

  lemma BeatIsSent(requests: map<nat, Request>, id: nat)
    requires Reachable(Early(Resting, requests, id))
    ensures Reachable(Early(AwaitingBeat(id), requests[id := Request(0, Beat, 100, Arrived)], id + 1))
  {
    var s := Early(Resting, requests, id);
    Follow(s, SendBeat(0));
    assert Apply(s, SendBeat(0), 0).agents == map[0 := Agent(100, AwaitingBeat(id))];
  }

  lemma BeatIsAuthenticated(requests: map<nat, Request>, id: nat)
    requires Reachable(Early(AwaitingBeat(id), requests[id := Request(0, Beat, 100, Arrived)], id + 1))
    ensures Reachable(Early(AwaitingBeat(id), requests[id := Request(0, Beat, 100, Authenticated)], id + 1))
  {
    var s := Early(AwaitingBeat(id), requests[id := Request(0, Beat, 100, Arrived)], id + 1);
    Follow(s, Authenticating(id));
    assert Apply(s, Authenticating(id), 0).requests == requests[id := Request(0, Beat, 100, Authenticated)];
  }

  lemma BeatIsDue(requests: map<nat, Request>, id: nat)
    requires Reachable(Early(AwaitingBeat(id), requests[id := Request(0, Beat, 100, Authenticated)], id + 1))
    ensures Reachable(Early(AwaitingBeat(id), requests[id := HELD], id + 1))
  {
    var s := Early(AwaitingBeat(id), requests[id := Request(0, Beat, 100, Authenticated)], id + 1);
    assert Newest(FIRST, 0, 100);
    Follow(s, Checking(id, DAY));
    assert Apply(s, Checking(id, DAY), 0).requests == requests[id := HELD];
  }

  lemma FirstBeatIsAbandoned()
    ensures Reachable(Early(Resting, map[0 := HELD], 1))
  {
    AgentEnrolls();
    BeatIsSent(map[], 0);
    BeatIsAuthenticated(map[], 0);
    BeatIsDue(map[], 0);
    var s := Early(AwaitingBeat(0), map[][0 := HELD], 1);
    Follow(s, GivingUp(0));
    var t := Apply(s, GivingUp(0), 0);
    assert t.agents == map[0 := Agent(100, Resting)] && t.requests == map[0 := HELD];
  }

  lemma SecondBeatIsDueToo()
    ensures Reachable(Early(AwaitingBeat(1), map[0 := HELD][1 := HELD], 2))
  {
    FirstBeatIsAbandoned();
    BeatIsSent(map[0 := HELD], 1);
    BeatIsAuthenticated(map[0 := HELD], 1);
    BeatIsDue(map[0 := HELD], 1);
  }

  /** The second beat brings a new credential, and a command whose result is to be sent. */
  ghost predicate Brought(s: System) {
    && s.agents == map[0 := Agent(101, Reporting(1))] && s.requests == map[0 := HELD] && s.nextId == 2
    && s.rows.Keys == {100, 101} && s.rows[101] == Row(0, false, DAY)
  }

  lemma SecondBeatRotates()
    ensures exists s :: Reachable(s) && Brought(s)
  {
    SecondBeatIsDueToo();
    var s := Early(AwaitingBeat(1), map[0 := HELD][1 := HELD], 2);
    Follow(s, Rotating(1, 101, DAY));
    var rotated := Apply(s, Rotating(1, 101, DAY), 0);
    assert rotated.rows[101] == Row(0, false, DAY);
    Follow(rotated, Delivering(1, 1));
    assert Brought(Apply(rotated, Delivering(1, 1), 0));
  }

  lemma ResultOfARevokedAgent(s: System)
    requires Reachable(s) && s.agents == map[0 := Agent(101, Reporting(1))] && s.nextId == 2
    requires 101 in s.rows && s.rows[101].revoked
    ensures exists t :: Reachable(t) && 2 in t.requests && t.requests[2] == Request(0, Result, 101, Rejected)
                        && t.agents == map[0 := Agent(101, AwaitingResult(2, 0))]
  {
    Follow(s, SendResult(0));
    var sent := Apply(s, SendResult(0), 0);
    assert sent.agents == map[0 := Agent(101, AwaitingResult(2, 0))];
    Follow(sent, Authenticating(2));
    assert Apply(sent, Authenticating(2), 0).requests[2] == Request(0, Result, 101, Rejected);
  }

  /**
   * A heartbeat the agent gave up on can still be holding an answered age query,
   * and rotate away the credential a later beat has just brought.
   */
  lemma AResultCanBeRefused()
    ensures exists s :: Reachable(s) && 2 in s.requests && s.requests[2] == Request(0, Result, 101, Rejected)
                        && s.agents == map[0 := Agent(101, AwaitingResult(2, 0))]
  {
    SecondBeatRotates();
    var s :| Reachable(s) && Brought(s);
    Follow(s, Rotating(0, 102, DAY));
    ResultOfARevokedAgent(Apply(s, Rotating(0, 102, DAY), 0));
  }
}
