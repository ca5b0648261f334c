/**
 * One whole exchange, agent, handlers and tables together: heartbeat and
 * runCommands in internal/agent/report.go, Heartbeat and CompleteCommand in
 * internal/controlplane/controlplane.go, and the handlers in
 * internal/server/agent.go.
 */
module Exchange {
  import opened Options
  import opened Credentials
  import C = Commands

  datatype Reply =
    | Accepted(commands: seq<C.Id>, rotated: Option<Token>)
    | Unauthorized | BadRequest | NotFound | ServerError

  /** What the database refuses to do while a heartbeat is handled. */
  datatype Faults = Faults(record: bool, take: bool, rotate: bool)

  /** What the heartbeat handler does to the two tables, and answers. */
  ghost predicate Handled(m: Table, m': Table, q: C.Table, q': C.Table, runner: Runner, lifetime: int,
                          faults: Faults, secret: Token, now: int, reply: Reply)
  {
    && reply.Accepted?
    && reply.rotated == (if DueForRotation(m, runner, lifetime, now) && !faults.rotate then Some(secret) else None)
    && m' == (if reply.rotated.Some? then Issue(m, runner, secret, now) else m)
    && q' == C.Marked(q, C.Ids(reply.commands), C.Delivered)
    && |reply.commands| == |C.Ids(reply.commands)|
    && (if faults.take then reply.commands == [] else C.Takeable(q, runner, C.Ids(reply.commands)))
  }

  class ControlPlane {
    const machines: TokenStore
    const commands: C.CommandStore
    const lifetime: int

    constructor (lifetime: int)
      ensures fresh(machines) && fresh(commands) && this.lifetime == lifetime
      ensures machines.rows == map[] && commands.rows == map[]
    {
      machines := new TokenStore();
      commands := new C.CommandStore();
      this.lifetime := lifetime;
    }

    /** Takes the commands and rotates the credential; trouble with either does not fail the heartbeat. */
    method HandleHeartbeat(token: Token, valid: bool, faults: Faults, secret: Token, now: int) returns (reply: Reply)
      requires secret !in machines.rows
      modifies machines, commands
      ensures var who := Authenticate(old(machines.rows), token);
              if who.None? || !valid || faults.record then
                && machines.rows == old(machines.rows) && commands.rows == old(commands.rows)
                && reply == if who.None? then Unauthorized else if !valid then BadRequest else ServerError
              else
                Handled(old(machines.rows), machines.rows, old(commands.rows), commands.rows,
                        who.value, lifetime, faults, secret, now, reply)
    {
      var who := machines.AuthenticateMachine(token);
      if who.None? {
        return Unauthorized;
      }
      if !valid {
        return BadRequest;
      }
      if faults.record {
        return ServerError;
      }
      var taken: seq<C.Id> := [];
      if faults.take {
        MarkedNothing(commands.rows);
      } else {
        taken := commands.TakeCommands(who.value);
      }
      var rotated: Option<Token> := None;
      if !faults.rotate {
        rotated := machines.RotateMachineTokenIfOld(who.value, lifetime, secret, now);
      }
      return Accepted(taken, rotated);
    }

    /** Closes a command of the caller's own. */
    method HandleResult(token: Token, id: C.Id, failed: bool) returns (reply: Reply)
      modifies commands
      ensures var who := Authenticate(machines.rows, token);
              var open := who.Some? && C.OpenFor(old(commands.rows), who.value, id);
              && reply == (if who.None? then Unauthorized else if !open then NotFound else Accepted([], None))
              && commands.rows == if open then C.Marked(old(commands.rows), {id}, if failed then C.Failed else C.Done)
                                  else old(commands.rows)
    {
      var who := machines.AuthenticateMachine(token);
      if who.None? {
        return Unauthorized;
      }
      var found := commands.CompleteCommand(who.value, id, failed);
      return if found then Accepted([], None) else NotFound;
    }
  }

  lemma MarkedNothing(m: C.Table)
    ensures C.Ids([]) == {} && C.Marked(m, {}, C.Delivered) == m
  {
  }

  lemma MarkedOneMore(m: C.Table, ids: set<C.Id>, id: C.Id, status: C.Status)
    ensures C.Marked(C.Marked(m, ids, status), {id}, status) == C.Marked(m, ids + {id}, status)
  {
  }

  /** The first n of these commands whose result got through. */
  function Reported(ids: seq<C.Id>, lost: set<nat>, n: nat): set<C.Id>
    requires n <= |ids|
  {
    if n == 0 then {}
    else if n - 1 in lost then Reported(ids, lost, n - 1)
    else Reported(ids, lost, n - 1) + {ids[n - 1]}
  }

  lemma {:induction false} ReportedAreAmong(ids: seq<C.Id>, lost: set<nat>, n: nat)
    requires n <= |ids|
    ensures forall id :: id in Reported(ids, lost, n) ==> exists k :: 0 <= k < n && ids[k] == id
    ensures lost == {} ==> forall k :: 0 <= k < n ==> ids[k] in Reported(ids, lost, n)
  {
    if n > 0 { ReportedAreAmong(ids, lost, n - 1); }
  }

  /** Of different commands, those are reported whose place is before n and not lost. */
  lemma {:induction false} ReportedExactly(ids: seq<C.Id>, lost: set<nat>, n: nat, k: nat)
    requires n <= |ids| && k < |ids| && Distinct(ids)
    ensures ids[k] in Reported(ids, lost, n) <==> k < n && k !in lost
  {
    if n > 0 { ReportedExactly(ids, lost, n - 1, k); }
  }

  predicate Distinct(ids: seq<C.Id>) { forall i, j :: 0 <= i < j < |ids| ==> ids[i] != ids[j] }

  /** As many different commands as there are places: none twice. */
  lemma {:induction false} NoneTwice(ids: seq<C.Id>)
    requires |C.Ids(ids)| == |ids|
    ensures Distinct(ids)
  {
    if ids != [] {
      var init, last := ids[..|ids| - 1], ids[|ids| - 1];
      assert ids == init + [last];
      assert C.Ids(ids) == C.Ids(init) + {last};
      AtMostItsLength(init);
      assert last !in C.Ids(init);
      NoneTwice(init);
      assert forall i :: 0 <= i < |init| ==> init[i] in C.Ids(init);
    }
  }

  lemma {:induction false} AtMostItsLength(ids: seq<C.Id>)
    ensures |C.Ids(ids)| <= |ids|
  {
    if ids != [] {
      AtMostItsLength(ids[..|ids| - 1]);
      assert ids == ids[..|ids| - 1] + [ids[|ids| - 1]];
      assert C.Ids(ids) == C.Ids(ids[..|ids| - 1]) + {ids[|ids| - 1]};
    }
  }

  /** How much of an exchange the network loses. */
  datatype Loss = NothingLost | RequestLost | ReplyLost

  /** A heartbeat the agent gave up on earlier, which rotates just before result number `at` is sent. */
  datatype Straggler = Straggler(at: nat, secret: Token)

  predicate Interrupts(late: Option<Straggler>, ids: seq<C.Id>) { late.Some? && late.value.at < |ids| }

  /** How many results are sent with a live credential. */
  function Through(late: Option<Straggler>, ids: seq<C.Id>): (n: nat)
    ensures n <= |ids|
  {
    if Interrupts(late, ids) then late.value.at else |ids|
  }

  /** The reporter and its client: the credential in use, and the restarts it has asked the supervisor for. */
  class Agent {
    const canRestart: bool
    var token: Token
    var refused: bool
    var restarts: seq<C.Id>

    constructor (token: Token, canRestart: bool)
      ensures this.token == token && this.canRestart == canRestart && !refused && restarts == []
    {
      this.token, this.canRestart := token, canRestart;
      refused, restarts := false, [];
    }

    /**
     * Carries each command out once and reports it. Those are closed whose
     * report gets through before a straggler has revoked the credential it is
     * sent with; after that they are refused.
     */
    method RunCommands(server: ControlPlane, runner: Runner, ids: seq<C.Id>, lost: set<nat>,
                       late: Option<Straggler>, now: int)
      requires OnlyLive(server.machines.rows, runner, token) && Distinct(ids)
      requires late.Some? ==> late.value.secret !in server.machines.rows
      requires forall k :: 0 <= k < |ids| ==> C.OpenFor(server.commands.rows, runner, ids[k])
      modifies this`restarts, server.machines, server.commands
      ensures restarts == old(restarts) + if canRestart then ids else []
      ensures server.machines.rows ==
              if Interrupts(late, ids) then Issue(old(server.machines.rows), runner, late.value.secret, now)
              else old(server.machines.rows)
      ensures OnlyLive(server.machines.rows, runner, token) <==> !Interrupts(late, ids)
      ensures server.commands.rows ==
              C.Marked(old(server.commands.rows), Reported(ids, lost, Through(late, ids)),
                       if canRestart then C.Done else C.Failed)
      // Closed are those whose result is neither lost nor sent after the straggler; the rest stay as they were
      ensures forall k :: 0 <= k < |ids| ==>
                ids[k] in server.commands.rows &&
                server.commands.rows[ids[k]].status ==
                if k in lost || (late.Some? && late.value.at <= k) then old(server.commands.rows)[ids[k]].status
                else if canRestart then C.Done else C.Failed
    {
      ghost var m, q, status := server.machines.rows, server.commands.rows, if canRestart then C.Done else C.Failed;
      assert LiveFor(m, runner, token);
      assert C.Marked(q, {}, status) == q;
      if late.Some? { IssueLeavesOneLive(m, runner, late.value.secret, now); }
      for i := 0 to |ids|
        invariant restarts == old(restarts) + if canRestart then ids[..i] else []
        invariant i <= Through(late, ids) ==> server.machines.rows == m
        invariant i > Through(late, ids) ==> server.machines.rows == Issue(m, runner, late.value.secret, now)
        invariant server.commands.rows ==
                  C.Marked(q, Reported(ids, lost, if i <= Through(late, ids) then i else Through(late, ids)), status)
      {
        if canRestart {
          restarts := restarts + [ids[i]];
        }
        if late.Some? && late.value.at == i {
          server.machines.IssueMachineToken(runner, late.value.secret, now);
        }
        if i !in lost {
          if i < Through(late, ids) {
            ReportedAreAmong(ids, lost, i);
            MarkedOneMore(q, Reported(ids, lost, i), ids[i], status);
            assert LiveFor(m, runner, token);
          } else {
            assert !LiveFor(server.machines.rows, runner, token);
            assert token in server.machines.rows && server.machines.rows[token].runner == runner;
          }
          var _ := server.HandleResult(token, ids[i], !canRestart);
        }
      }
      assert ids[..|ids|] == ids;
      if Interrupts(late, ids) { assert LiveFor(server.machines.rows, runner, late.value.secret); }
      forall k | 0 <= k < |ids|
        ensures ids[k] in Reported(ids, lost, Through(late, ids)) <==> k < Through(late, ids) && k !in lost
      {
        ReportedExactly(ids, lost, Through(late, ids), k);
      }
    }

    /**
     * One heartbeat and the commands it brings. Where nothing is lost, an agent
     * with the live credential comes out of it with the live credential, unless
     * a straggler rotates once more, and every command whose result got through
     * by then is closed. The rest are left delivered, as are all of them when the
     * reply is lost; and a lost reply leaves the agent stranded exactly if it
     * carried a rotation. An agent with a dead credential is refused, and
     * changes nothing.
     */
    method Beat(server: ControlPlane, runner: Runner, ghost live: Token, loss: Loss, lost: set<nat>,
                late: Option<Straggler>, faults: Faults, secret: Token, now: int)
      requires secret !in server.machines.rows && OnlyLive(server.machines.rows, runner, live) && !refused
      requires late.Some? ==> late.value.secret !in server.machines.rows && late.value.secret != secret
      requires token in server.machines.rows && server.machines.rows[token].runner == runner
      modifies this, server.machines, server.commands
      ensures refused <==> loss.NothingLost? && old(token) != live
      ensures old(token) != live ==>
                && token == old(token) && restarts == old(restarts)
                && server.machines.rows == old(server.machines.rows)
                && server.commands.rows == old(server.commands.rows)
      ensures old(token) == live && (loss.RequestLost? || (loss.NothingLost? && late.None?)) ==>
                OnlyLive(server.machines.rows, runner, token)
      ensures old(token) == live && loss.ReplyLost? ==>
                (OnlyLive(server.machines.rows, runner, token) <==>
                 faults.record || faults.rotate ||
                 !old(DueForRotation(server.machines.rows, runner, server.lifetime, now)))
      ensures !loss.NothingLost? ==> token == old(token) && restarts == old(restarts)
      ensures loss.RequestLost? || faults.record || faults.take ==>
                server.commands.rows == old(server.commands.rows) && restarts == old(restarts)
      ensures old(token) == live && loss.ReplyLost? && !faults.record && !faults.take ==>
                exists ids :: C.Takeable(old(server.commands.rows), runner, C.Ids(ids)) && Distinct(ids) &&
                  server.commands.rows == C.Marked(old(server.commands.rows), C.Ids(ids), C.Delivered)
      ensures old(token) == live && loss.NothingLost? && !faults.record && !faults.take ==>
                exists ids ::
                  && C.Takeable(old(server.commands.rows), runner, C.Ids(ids)) && Distinct(ids)
                  && restarts == old(restarts) + (if canRestart then ids else [])
                  && (OnlyLive(server.machines.rows, runner, token) <==> !Interrupts(late, ids))
                  && server.commands.rows ==
                       C.Marked(C.Marked(old(server.commands.rows), C.Ids(ids), C.Delivered),
                                Reported(ids, lost, Through(late, ids)), if canRestart then C.Done else C.Failed)
    {
      if loss.RequestLost? {
        return;
      }
      ghost var m, q := server.machines.rows, server.commands.rows;
      assert LiveFor(m, runner, live) && (LiveFor(m, runner, token) <==> token == live);
      IssueLeavesOneLive(m, runner, secret, now);
      MarkedNothing(q);
      var reply := server.HandleHeartbeat(token, true, faults, secret, now);
      if reply.Accepted? { NoneTwice(reply.commands); }
      if loss.ReplyLost? {
        assert reply.Accepted? && reply.rotated.Some? ==>
          LiveFor(server.machines.rows, runner, secret) && secret != token;
        return;
      }
      if reply.Unauthorized? {
        refused := true;
      } else if reply.Accepted? {
        if reply.rotated.Some? {
          token := reply.rotated.value;
        }
        HandedOutAreOpen(q, runner, reply.commands, faults.take);
        RunCommands(server, runner, reply.commands, lost, late, now);
        assert C.Marked(q, {}, if canRestart then C.Done else C.Failed) == q;
      }
    }
  }

  lemma HandedOutAreOpen(q: C.Table, runner: Runner, ids: seq<C.Id>, none: bool)
    requires if none then ids == [] else C.Takeable(q, runner, C.Ids(ids))
    ensures forall k :: 0 <= k < |ids| ==> C.OpenFor(C.Marked(q, C.Ids(ids), C.Delivered), runner, ids[k])
  {
    forall k | 0 <= k < |ids| ensures C.OpenFor(C.Marked(q, C.Ids(ids), C.Delivered), runner, ids[k]) {
      assert ids[k] in C.Ids(ids);
      assert ids[k] in C.AllPending(q, runner);
    }
  }
}
