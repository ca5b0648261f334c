/** The life of a queued command: internal/store/commands.go, and runCommands in internal/agent/report.go. */
module Commands {
  import opened Options

  type Runner = nat
  type Id = nat

  datatype Status = Pending | Delivered | Done | Failed {
    predicate Open() { Pending? || Delivered? }

    /** How far along a command is. */
    function Rank(): nat { match this case Pending => 0 case Delivered => 1 case Done => 2 case Failed => 2 }
  }

  datatype Command = Command(runner: Runner, status: Status, createdAt: int)

  type Table = map<Id, Command>

  const TAKE_LIMIT: nat := 10

  predicate OpenFor(m: Table, r: Runner, id: Id) { id in m && m[id].runner == r && m[id].status.Open() }

  predicate PendingFor(m: Table, r: Runner, id: Id) { id in m && m[id].runner == r && m[id].status.Pending? }

  function AllPending(m: Table, r: Runner): set<Id> { set id | id in m && PendingFor(m, r, id) }

  /** What the query may hand out: the oldest ten of what waits, or all of it. */
  ghost predicate Takeable(m: Table, r: Runner, picked: set<Id>) {
    && picked <= AllPending(m, r)
    && |picked| <= TAKE_LIMIT
    && (picked == AllPending(m, r) || |picked| == TAKE_LIMIT)
    && OldestFirst(m, picked, AllPending(m, r) - picked)
  }

  ghost predicate OldestFirst(m: Table, picked: set<Id>, left: set<Id>)
    requires picked <= m.Keys && left <= m.Keys
  {
    forall p, q :: p in picked && q in left ==> m[p].createdAt <= m[q].createdAt
  }

  function Marked(m: Table, ids: set<Id>, s: Status): Table {
    map id | id in m :: if id in ids then m[id].(status := s) else m[id]
  }

  function Ids(out: seq<Id>): set<Id> { set id | id in out }

  /** What the query hands out, row by row. */
  lemma TakeableMeans(m: Table, r: Runner, out: seq<Id>)
    requires Takeable(m, r, Ids(out)) && |out| == |Ids(out)|
    ensures forall id :: id in out ==> id in m && m[id].runner == r && m[id].status == Pending
    ensures |out| <= 10
    ensures forall id :: id in m && m[id].runner == r && m[id].status == Pending && id !in out ==>
              |out| == 10 && forall p :: p in out ==> m[p].createdAt <= m[id].createdAt
  {
    forall id | id in out ensures id in m && m[id].runner == r && m[id].status == Pending {
      assert id in AllPending(m, r);
    }
    forall id | id in m && m[id].runner == r && m[id].status == Pending && id !in out
      ensures |out| == 10 && forall p :: p in out ==> m[p].createdAt <= m[id].createdAt
    {
      assert PendingFor(m, r, id);
      assert id in AllPending(m, r) && id !in Ids(out);
      assert forall p :: p in out ==> p in Ids(out);
    }
  }

  lemma IdsAppend(out: seq<Id>, id: Id)
    ensures Ids(out + [id]) == Ids(out) + {id}
  {
  }

  /** Open commands created longer ago than the limit. */
  function Stale(m: Table, now: int, olderThan: int): set<Id> {
    set id | id in m && m[id].status.Open() && m[id].createdAt < now - olderThan
  }

  /** A caller of QueueCommand that found nothing open, and the commands there were when it looked. */
  datatype Look = Look(runner: Runner, known: set<Id>)

  /**
   * The table, the callers between their look-up and their insert, and what
   * became of the commands handed out: `inFlight` are in a reply that has not
   * reached the agent, `performed` have been carried out, and `results` are
   * reports that have not reached the server, with whether they tell of a failure.
   */
  datatype State = State(
    table: Table,
    callers: map<nat, Look>,
    handed: multiset<Id>,
    inFlight: multiset<Id>,
    performed: multiset<Id>,
    results: map<Id, bool>
  )

  const START: State := State(map[], map[], multiset{}, multiset{}, multiset{}, map[])

  /** Queue is both statements of QueueCommand with nothing in between; LookUp and Insert are one each. */
  datatype Step =
    | Queue(r: Runner, id: Id, now: int)
    | LookUp(caller: nat, r: Runner)
    | Insert(caller: nat, id: Id, now: int)
    | Take(r: Runner, picked: set<Id>)
    | Lose(id: Id)
    | Perform(id: Id, failed: bool)
    | LoseResult(id: Id)   // the report is lost, or refused for its credential
    | Complete(r: Runner, id: Id, failed: bool)
    | Expire(now: int, olderThan: int)

  /** A report of the runner's own command is the reporter's; any other is somebody's guess. */
  predicate Owns(s: State, r: Runner, id: Id) { id in s.table && s.table[id].runner == r }

  ghost predicate Enabled(s: State, step: Step) {
    match step
    case Queue(_, id, _) => id !in s.table
    case LookUp(caller, _) => caller !in s.callers
    case Insert(caller, id, _) => caller in s.callers && id !in s.table
    case Take(r, picked) => Takeable(s.table, r, picked)
    case Lose(id) => id in s.inFlight
    case Perform(id, _) => id in s.inFlight
    case LoseResult(id) => id in s.results
    case Complete(r, id, failed) => Owns(s, r, id) ==> id in s.results && s.results[id] == failed
    case Expire(_, _) => true
  }

  ghost function Apply(s: State, step: Step): State
    requires Enabled(s, step)
  {
    match step
    case Queue(r, id, now) =>
      if exists open :: OpenFor(s.table, r, open) then s
      else s.(table := s.table[id := Command(r, Pending, now)])
    case LookUp(caller, r) =>
      if exists open :: OpenFor(s.table, r, open) then s
      else s.(callers := s.callers[caller := Look(r, s.table.Keys)])
    case Insert(caller, id, now) =>
      s.(table := s.table[id := Command(s.callers[caller].runner, Pending, now)], callers := s.callers - {caller})
    case Take(r, picked) =>
      s.(table := Marked(s.table, picked, Delivered),
         handed := s.handed + multiset(picked), inFlight := s.inFlight + multiset(picked))
    case Lose(id) => s.(inFlight := s.inFlight - multiset{id})
    case Perform(id, failed) =>
      s.(inFlight := s.inFlight - multiset{id}, performed := s.performed + multiset{id},
         results := s.results[id := failed])
    case LoseResult(id) => s.(results := s.results - {id})
    case Complete(r, id, failed) =>
      var left := if Owns(s, r, id) then s.results - {id} else s.results;
      if OpenFor(s.table, r, id)
      then s.(table := Marked(s.table, {id}, if failed then Failed else Done), results := left)
      else s.(results := left)
    case Expire(now, olderThan) =>
      if olderThan <= 0 then s else s.(table := Marked(s.table, Stale(s.table, now, olderThan), Failed))
  }

  ghost function After(steps: seq<Step>, n: nat): Option<State>
    requires n <= |steps|
  {
    if n == 0 then Some(START)
    else
      var s := After(steps, n - 1);
      if s.Some? && Enabled(s.value, steps[n - 1]) then Some(Apply(s.value, steps[n - 1])) else None
  }

  ghost predicate OneOpen(m: Table) {
    forall r, a, b :: OpenFor(m, r, a) && OpenFor(m, r, b) ==> a == b
  }

  /** What a caller knew of its runner's commands when it looked is still there, and closed. */
  ghost predicate StaysClosed(s: State, caller: nat)
    requires caller in s.callers
  {
    var look := s.callers[caller];
    forall id :: id in look.known ==> id in s.table && !OpenFor(s.table, look.runner, id)
  }

  ghost predicate Inv(s: State) {
    && (forall id :: Counted(s, id))
    && (forall caller :: caller in s.callers ==> StaysClosed(s, caller))
  }

  ghost predicate Counted(s: State, id: Id) {
    && s.inFlight[id] + s.performed[id] <= s.handed[id] <= 1
    && (s.handed[id] > 0 ==> id in s.table && !s.table[id].status.Pending?)
  }

  lemma CountedTake(s: State, r: Runner, picked: set<Id>, id: Id)
    requires Counted(s, id) && Enabled(s, Take(r, picked))
    ensures Counted(Apply(s, Take(r, picked)), id)
  {
    if id in picked {
      assert id in AllPending(s.table, r);
    }
  }

  lemma CountedStep(s: State, step: Step, id: Id)
    requires Counted(s, id) && Enabled(s, step)
    ensures Counted(Apply(s, step), id)
  {
    match step
    case Take(r, picked) => CountedTake(s, r, picked, id);
    case _ =>
  }

  lemma StaysClosedStep(s: State, step: Step, caller: nat)
    requires (caller in s.callers ==> StaysClosed(s, caller)) && Enabled(s, step) && caller in Apply(s, step).callers
    ensures StaysClosed(Apply(s, step), caller)
  {
    var after := Apply(s, step);
    var look := after.callers[caller];
    forall id | id in look.known ensures id in after.table && !OpenFor(after.table, look.runner, id) {
      assert id in s.table && !OpenFor(s.table, look.runner, id);
    }
  }

  lemma InvStep(s: State, step: Step)
    requires Inv(s) && Enabled(s, step)
    ensures Inv(Apply(s, step))
  {
    forall id ensures Counted(Apply(s, step), id) {
      CountedStep(s, step, id);
    }
    forall caller | caller in Apply(s, step).callers ensures StaysClosed(Apply(s, step), caller) {
      StaysClosedStep(s, step, caller);
    }
  }

  lemma {:induction false} InvAlways(steps: seq<Step>, n: nat)
    requires n <= |steps| && After(steps, n).Some?
    ensures Inv(After(steps, n).value)
  {
    if n > 0 {
      InvAlways(steps, n - 1);
      InvStep(After(steps, n - 1).value, steps[n - 1]);
    }
  }

  /** Over every run: each command is handed out at most once, so it is carried out at most once. */
  lemma CommandsArePerformedAtMostOnce(steps: seq<Step>, n: nat)
    requires n <= |steps| && After(steps, n).Some?
    ensures var s := After(steps, n).value;
            && (forall id :: s.performed[id] <= s.handed[id] <= 1)
            && (forall id :: s.performed[id] > 0 ==> id in s.table && !s.table[id].status.Pending?)
  {
    InvAlways(steps, n);
    var s := After(steps, n).value;
    forall id ensures s.performed[id] <= s.handed[id] <= 1
              ensures s.performed[id] > 0 ==> id in s.table && !s.table[id].status.Pending? {
      assert Counted(s, id);
    }
  }

  // When a command stays delivered

  /** The reply that hands it out is lost, or its result is lost or refused. */
  predicate Misses(step: Step, id: Id) { step == Lose(id) || step == LoseResult(id) }

  predicate Expires(s: State, step: Step, id: Id) {
    step.Expire? && step.olderThan > 0 && id in Stale(s.table, step.now, step.olderThan)
  }

  predicate OnItsWay(s: State, id: Id) { id in s.inFlight || id in s.results }

  /** What is known of one command, given whether it was missed and whether it expired. */
  ghost predicate Tracked(s: State, id: Id, missed: bool, expired: bool) {
    && Counted(s, id)
    && (OnItsWay(s, id) || missed ==> id in s.handed)
    && !(id in s.inFlight && id in s.results) && (missed ==> !OnItsWay(s, id))
    && (id in s.results ==> id in s.performed)
    && (expired ==> id in s.table && !s.table[id].status.Open())
    && (id in s.handed ==>
          (s.table[id].status.Delivered? <==> (OnItsWay(s, id) || missed) && !expired))
  }

  lemma TrackedTake(s: State, r: Runner, picked: set<Id>, id: Id, missed: bool, expired: bool)
    requires Tracked(s, id, missed, expired) && Enabled(s, Take(r, picked))
    ensures Tracked(Apply(s, Take(r, picked)), id, missed, expired)
  {
    CountedTake(s, r, picked, id);
    if id in picked {
      assert id in AllPending(s.table, r);
      assert s.handed[id] == 0;
    }
  }

  lemma TrackedReport(s: State, step: Step, id: Id, missed: bool, expired: bool)
    requires Tracked(s, id, missed, expired) && Enabled(s, step) && (step.Complete? || step.Expire?)
    ensures Tracked(Apply(s, step), id, missed, expired || Expires(s, step, id))
  {
    CountedStep(s, step, id);
  }

  lemma TrackedAgent(s: State, step: Step, id: Id, missed: bool, expired: bool)
    requires Tracked(s, id, missed, expired) && Enabled(s, step)
    requires step.Lose? || step.Perform? || step.LoseResult?
    ensures Tracked(Apply(s, step), id, missed || Misses(step, id), expired)
  {
    CountedStep(s, step, id);
  }

  lemma TrackedStep(s: State, step: Step, id: Id, missed: bool, expired: bool)
    requires Tracked(s, id, missed, expired) && Enabled(s, step)
    ensures Tracked(Apply(s, step), id, missed || Misses(step, id), expired || Expires(s, step, id))
  {
    match step
    case Take(r, picked) => TrackedTake(s, r, picked, id, missed, expired);
    case Complete(_, _, _) => TrackedReport(s, step, id, missed, expired);
    case Expire(_, _) => TrackedReport(s, step, id, missed, expired);
    case Lose(_) => TrackedAgent(s, step, id, missed, expired);
    case Perform(_, _) => TrackedAgent(s, step, id, missed, expired);
    case LoseResult(_) => TrackedAgent(s, step, id, missed, expired);
    case _ => CountedStep(s, step, id);
  }

  ghost predicate ExpiresAt(steps: seq<Step>, k: nat, id: Id)
    requires k < |steps|
  {
    After(steps, k).Some? && Expires(After(steps, k).value, steps[k], id)
  }

  ghost predicate Missed(steps: seq<Step>, n: nat, id: Id)
    requires n <= |steps|
  {
    exists k :: 0 <= k < n && Misses(steps[k], id)
  }

  ghost predicate Expired(steps: seq<Step>, n: nat, id: Id)
    requires n <= |steps|
  {
    exists k :: 0 <= k < n && ExpiresAt(steps, k, id)
  }

  lemma {:induction false} TrackedAlways(steps: seq<Step>, n: nat, id: Id)
    requires n <= |steps| && After(steps, n).Some?
    ensures Tracked(After(steps, n).value, id, Missed(steps, n, id), Expired(steps, n, id))
  {
    if n > 0 {
      TrackedAlways(steps, n - 1, id);
      TrackedStep(After(steps, n - 1).value, steps[n - 1], id, Missed(steps, n - 1, id), Expired(steps, n - 1, id));
      assert Missed(steps, n, id) <==> Missed(steps, n - 1, id) || Misses(steps[n - 1], id);
      assert Expired(steps, n, id) <==> Expired(steps, n - 1, id) || ExpiresAt(steps, n - 1, id);
    }
  }

  /**
   * Over every run: a command that was handed out, with neither the reply nor
   * its result still on the way, stays delivered exactly if one of the two was
   * lost or refused and it has not expired since.
   */
  lemma DeliveredExactlyWhenMissed(steps: seq<Step>, n: nat, id: Id)
    requires n <= |steps| && After(steps, n).Some?
    requires var s := After(steps, n).value; id in s.handed && !OnItsWay(s, id)
    ensures id in After(steps, n).value.table
    ensures After(steps, n).value.table[id].status.Delivered? <==>
            (exists k :: 0 <= k < n && Misses(steps[k], id)) && !Expired(steps, n, id)
  {
    TrackedAlways(steps, n, id);
  }

  /** A step in which the runner's agent reports one of its commands, still open, with this outcome. */
  ghost predicate ReportedAt(steps: seq<Step>, k: nat, id: Id, failed: bool)
    requires k < |steps|
  {
    && After(steps, k).Some? && id in After(steps, k).value.table
    && steps[k] == Complete(After(steps, k).value.table[id].runner, id, failed)
    && (After(steps, k).value.table[id].status == Pending || After(steps, k).value.table[id].status == Delivered)
  }

  lemma ClosedStep(s: State, step: Step, id: Id)
    requires Enabled(s, step) && id in s.table
    ensures var after, open := Apply(s, step).table, s.table[id].status == Pending || s.table[id].status == Delivered;
            && id in after
            && (after[id].status == Done <==>
                  s.table[id].status == Done || (open && step == Complete(s.table[id].runner, id, false)))
            && (after[id].status == Failed <==>
                  || s.table[id].status == Failed
                  || (open && step == Complete(s.table[id].runner, id, true))
                  || (open && step.Expire? && step.olderThan > 0 && s.table[id].createdAt < step.now - step.olderThan))
  {
    if step.Take? && id in step.picked { assert id in AllPending(s.table, step.r); }
  }

  lemma NewIsPending(s: State, step: Step, id: Id)
    requires Enabled(s, step) && id !in s.table && id in Apply(s, step).table
    ensures Apply(s, step).table[id].status == Pending
  {
  }

  ghost predicate DoneAt(steps: seq<Step>, n: nat, id: Id)
    requires n <= |steps|
  {
    After(steps, n).Some? && id in After(steps, n).value.table && After(steps, n).value.table[id].status == Done
  }

  lemma DoneNext(steps: seq<Step>, k: nat, id: Id)
    requires k < |steps| && After(steps, k + 1).Some?
    ensures DoneAt(steps, k + 1, id) <==> DoneAt(steps, k, id) || ReportedAt(steps, k, id, false)
  {
    var s := After(steps, k).value;
    if id in s.table {
      ClosedStep(s, steps[k], id);
    } else if id in Apply(s, steps[k]).table {
      NewIsPending(s, steps[k], id);
    }
  }

  lemma {:induction false} DoneOnceReported(steps: seq<Step>, n: nat, id: Id)
    requires n <= |steps| && !DoneAt(steps, 0, id)
    requires forall k :: 0 <= k < n ==>
               (DoneAt(steps, k + 1, id) <==> DoneAt(steps, k, id) || ReportedAt(steps, k, id, false))
    ensures DoneAt(steps, n, id) <==> exists k :: 0 <= k < n && ReportedAt(steps, k, id, false)
  {
    if n > 0 {
      DoneOnceReported(steps, n - 1, id);
      assert DoneAt(steps, n, id) <==> DoneAt(steps, n - 1, id) || ReportedAt(steps, n - 1, id, false);
    }
  }

  /** Over every run: a command is done exactly if its agent reported, while it was open, that it succeeded. */
  lemma DoneExactlyWhenReportedSo(steps: seq<Step>, n: nat, id: Id)
    requires n <= |steps| && After(steps, n).Some?
    ensures DoneAt(steps, n, id) <==> exists k :: 0 <= k < n && ReportedAt(steps, k, id, false)
  {
    forall k | 0 <= k < n
      ensures DoneAt(steps, k + 1, id) <==> DoneAt(steps, k, id) || ReportedAt(steps, k, id, false)
    {
      DoneNextOf(steps, k, n, id);
    }
    DoneOnceReported(steps, n, id);
  }

  lemma DoneNextOf(steps: seq<Step>, k: nat, n: nat, id: Id)
    requires k < n <= |steps| && After(steps, n).Some?
    ensures DoneAt(steps, k + 1, id) <==> DoneAt(steps, k, id) || ReportedAt(steps, k, id, false)
  {
    RunPrefix(steps, k + 1, n);
    DoneNext(steps, k, id);
  }

  // One open command per runner

  /** An insert that lands while another command of its runner, queued since its own look-up, is still open. */
  ghost predicate Late(s: State, step: Step) {
    && step.Insert? && step.caller in s.callers
    && exists other :: OpenFor(s.table, s.callers[step.caller].runner, other) && other !in s.callers[step.caller].known
  }

  lemma InsertKeepsOneOpen(s: State, step: Step)
    requires Inv(s) && OneOpen(s.table) && Enabled(s, step) && step.Insert?
    ensures OneOpen(Apply(s, step).table) <==> !Late(s, step)
  {
    var look, after := s.callers[step.caller], Apply(s, step).table;
    assert StaysClosed(s, step.caller);
    assert OpenFor(after, look.runner, step.id);
    forall q, a | a != step.id ensures OpenFor(after, q, a) <==> OpenFor(s.table, q, a) {
    }
    if Late(s, step) {
      var other :| OpenFor(s.table, look.runner, other) && other !in look.known;
      assert OpenFor(after, look.runner, other);
    } else {
      forall r, a, b | OpenFor(after, r, a) && OpenFor(after, r, b) ensures a == b {
        assert a == step.id || OpenFor(s.table, r, a);
        assert b == step.id || OpenFor(s.table, r, b);
      }
    }
  }

  lemma QueueKeepsOneOpen(s: State, step: Step)
    requires OneOpen(s.table) && Enabled(s, step) && step.Queue?
    ensures OneOpen(Apply(s, step).table)
  {
    var after := Apply(s, step).table;
    forall r, a, b | OpenFor(after, r, a) && OpenFor(after, r, b) ensures a == b {
      assert after == s.table || a == step.id || OpenFor(s.table, r, a);
      assert after == s.table || b == step.id || OpenFor(s.table, r, b);
    }
  }

  lemma OneOpenStep(s: State, step: Step)
    requires Inv(s) && OneOpen(s.table) && Enabled(s, step)
    ensures OneOpen(Apply(s, step).table) <==> !Late(s, step)
  {
    if step.Queue? {
      QueueKeepsOneOpen(s, step);
    } else if step.Insert? {
      InsertKeepsOneOpen(s, step);
    } else {
      var after := Apply(s, step).table;
      forall r, a, b | OpenFor(after, r, a) && OpenFor(after, r, b) ensures a == b {
        assert OpenFor(s.table, r, a) && OpenFor(s.table, r, b);
      }
    }
  }

  ghost predicate OneOpenAt(steps: seq<Step>, k: nat)
    requires k <= |steps|
  {
    After(steps, k).Some? ==> OneOpen(After(steps, k).value.table)
  }

  ghost predicate LateAt(steps: seq<Step>, k: nat)
    requires k < |steps|
  {
    After(steps, k).Some? && Late(After(steps, k).value, steps[k])
  }

  lemma {:induction false} RunPrefix(steps: seq<Step>, k: nat, n: nat)
    requires k <= n <= |steps| && After(steps, n).Some?
    ensures After(steps, k).Some?
    decreases n
  {
    if k < n { RunPrefix(steps, k, n - 1); }
  }

  lemma OneOpenAtNext(steps: seq<Step>, k: nat, n: nat)
    requires k < n <= |steps| && After(steps, n).Some?
    ensures OneOpenAt(steps, k) ==> (OneOpenAt(steps, k + 1) <==> !LateAt(steps, k))
  {
    RunPrefix(steps, k + 1, n);
    InvAlways(steps, k);
    if OneOpenAt(steps, k) { OneOpenStep(After(steps, k).value, steps[k]); }
  }

  lemma {:induction false} OneOpenUntilLate(steps: seq<Step>, n: nat)
    requires n <= |steps| && OneOpenAt(steps, 0)
    requires forall k :: 0 <= k < n ==> OneOpenAt(steps, k) ==> (OneOpenAt(steps, k + 1) <==> !LateAt(steps, k))
    ensures (forall k :: 0 <= k <= n ==> OneOpenAt(steps, k)) <==> (forall k :: 0 <= k < n ==> !LateAt(steps, k))
  {
    if n > 0 {
      OneOpenUntilLate(steps, n - 1);
      assert OneOpenAt(steps, n - 1) ==> (OneOpenAt(steps, n) <==> !LateAt(steps, n - 1));
    }
  }

  /** Over every run: no runner ever has two open commands, exactly if no insert comes late. */
  lemma OneOpenExactlyUnlessAnInsertIsLate(steps: seq<Step>, n: nat)
    requires n <= |steps| && After(steps, n).Some?
    ensures (forall k :: 0 <= k <= n ==> OneOpenAt(steps, k)) <==> (forall k :: 0 <= k < n ==> !LateAt(steps, k))
  {
    forall k | 0 <= k < n ensures OneOpenAt(steps, k) ==> (OneOpenAt(steps, k + 1) <==> !LateAt(steps, k)) {
      OneOpenAtNext(steps, k, n);
    }
    OneOpenUntilLate(steps, n);
  }

  /** In particular while look-up and insert are one step. */
  lemma QueuingAtOnceKeepsOneOpen(steps: seq<Step>, n: nat)
    requires n <= |steps| && After(steps, n).Some? && forall k :: 0 <= k < n ==> !steps[k].Insert?
    ensures OneOpen(After(steps, n).value.table)
  {
    OneOpenExactlyUnlessAnInsertIsLate(steps, n);
    assert forall k :: 0 <= k < n ==> !LateAt(steps, k);
    assert OneOpenAt(steps, n);
  }

  /** With one open command at most, the limit of ten never bites: a heartbeat takes all that waits. */
  lemma TakingTakesEverything(s: State, r: Runner, picked: set<Id>)
    requires OneOpen(s.table) && Enabled(s, Take(r, picked))
    ensures picked == AllPending(s.table, r) && |picked| <= 1
    ensures AllPending(Apply(s, Take(r, picked)).table, r) == {}
  {
    var pending := AllPending(s.table, r);
    forall a, b | a in pending && b in pending ensures a == b {
      assert OpenFor(s.table, r, a) && OpenFor(s.table, r, b);
    }
    AtMostOne(pending);
    AtMostOne(picked);
    assert picked == pending;
  }

  lemma AtMostOne(ids: set<Id>)
    requires forall a, b :: a in ids && b in ids ==> a == b
    ensures |ids| <= 1
  {
    if ids != {} {
      var a :| a in ids;
      assert ids == {a};
    }
  }

  /** From one table to a later one, a command only ever moves forward, and a closed one not at all. */
  ghost predicate Forward(m: Table, m': Table) {
    forall id :: id in m ==>
      && id in m' && m'[id].runner == m[id].runner && m'[id].createdAt == m[id].createdAt
      && m[id].status.Rank() <= m'[id].status.Rank()
      && (!m[id].status.Open() ==> m'[id] == m[id])
      && (m[id].status.Delivered? && m'[id].status.Open() ==> m'[id].status.Delivered?)
  }

  /** Marking open commands as something further on. */
  lemma ForwardMarked(m: Table, ids: set<Id>, status: Status)
    requires !status.Pending?
    requires forall id :: id in ids && id in m ==> m[id].status.Open() && (status.Delivered? ==> m[id].status.Pending?)
    ensures Forward(m, Marked(m, ids, status))
  {
  }

  lemma ForwardStep(s: State, step: Step)
    requires Enabled(s, step)
    ensures Forward(s.table, Apply(s, step).table)
  {
    match step
    case Take(r, picked) =>
      forall id | id in picked ensures PendingFor(s.table, r, id) {
        assert id in AllPending(s.table, r);
      }
      ForwardMarked(s.table, picked, Delivered);
    case Complete(r, id, failed) =>
      if OpenFor(s.table, r, id) { ForwardMarked(s.table, {id}, if failed then Failed else Done); }
    case Expire(now, olderThan) => ForwardMarked(s.table, Stale(s.table, now, olderThan), Failed);
    case _ =>
  }

  lemma ForwardTwice(a: Table, b: Table, c: Table)
    requires Forward(a, b) && Forward(b, c)
    ensures Forward(a, c)
  {
    forall id | id in a
      ensures id in c && c[id].runner == a[id].runner && c[id].createdAt == a[id].createdAt
      ensures a[id].status.Rank() <= c[id].status.Rank()
      ensures !a[id].status.Open() ==> c[id] == a[id]
      ensures a[id].status.Delivered? && c[id].status.Open() ==> c[id].status.Delivered?
    {
      assert id in b;
    }
  }

  lemma {:induction false} StatusOnlyMovesForward(steps: seq<Step>, m: nat, n: nat)
    requires m <= n <= |steps| && After(steps, n).Some?
    ensures After(steps, m).Some? && Forward(After(steps, m).value.table, After(steps, n).value.table)
    decreases n
  {
    if m < n {
      StatusOnlyMovesForward(steps, m, n - 1);
      var s := After(steps, n - 1).value;
      ForwardStep(s, steps[n - 1]);
      ForwardTwice(After(steps, m).value.table, s.table, Apply(s, steps[n - 1]).table);
    }
  }

  /** Who can close a command: its own runner's agent, or expiry, and expiry only by failing it. */
  lemma OnlyTheOwnerOrAgeCloses(s: State, step: Step, id: Id)
    requires Enabled(s, step) && id in s.table && s.table[id].status.Open()
    ensures id in Apply(s, step).table
    ensures !Apply(s, step).table[id].status.Open() <==>
            || (step.Complete? && step.id == id && step.r == s.table[id].runner)
            || (step.Expire? && step.olderThan > 0 && s.table[id].createdAt < step.now - step.olderThan)
    ensures Apply(s, step).table[id].status.Done? ==> step == Complete(s.table[id].runner, id, false)
  {
  }

  /** Once expired, no open command is older than the limit. */
  lemma ExpiryLeavesNothingStale(s: State, now: int, olderThan: int, id: Id)
    requires olderThan > 0 && id in Apply(s, Expire(now, olderThan)).table
    requires Apply(s, Expire(now, olderThan)).table[id].status.Open()
    ensures Apply(s, Expire(now, olderThan)).table[id].createdAt >= now - olderThan
  {
    assert id !in Stale(s.table, now, olderThan);
  }

  class CommandStore {
    var rows: Table

    constructor ()
      ensures rows == map[]
    {
      rows := map[];
    }

    /** Returns the open command there is, or queues one; anything but a restart is refused. */
    method QueueCommand(runner: Runner, isRestart: bool, id: Id, now: int) returns (queued: Option<Id>)
      requires id !in rows
      modifies this
      ensures !isRestart ==> queued == None && rows == old(rows)
      ensures isRestart ==> queued.Some? && OpenFor(rows, runner, queued.value)
      ensures isRestart && queued != Some(id) ==> rows == old(rows)
      ensures isRestart && queued == Some(id) ==>
                && (forall open :: !OpenFor(old(rows), runner, open))
                && rows == old(rows)[id := Command(runner, Pending, now)]
    {
      if !isRestart {
        return None;
      }
      var open := set c | c in rows && OpenFor(rows, runner, c);
      if open != {} {
        var existing :| existing in open;
        return Some(existing);
      }
      assert forall c :: OpenFor(rows, runner, c) ==> c in open;
      rows := rows[id := Command(runner, Pending, now)];
      return Some(id);
    }

    /** Marks the oldest ten of what waits as delivered and returns them, in no particular order. */
    method TakeCommands(runner: Runner) returns (out: seq<Id>)
      modifies this
      ensures Takeable(old(rows), runner, Ids(out))
      ensures forall id :: id in out ==>
                id in old(rows) && old(rows)[id].runner == runner && old(rows)[id].status == Pending
      ensures |out| <= 10
      ensures forall id :: id in old(rows) && id !in out ==>
                old(rows)[id].runner == runner && old(rows)[id].status == Pending ==>
                  |out| == 10 && forall p :: p in out ==> old(rows)[p].createdAt <= old(rows)[id].createdAt
      ensures rows == Marked(old(rows), Ids(out), Delivered)
      ensures |out| == |Ids(out)|
    {
      var left := AllPending(rows, runner);
      out := [];
      while left != {} && |out| < TAKE_LIMIT
        invariant rows == old(rows) && |out| <= TAKE_LIMIT
        invariant Ids(out) + left == AllPending(rows, runner) && Ids(out) !! left
        invariant OldestFirst(rows, Ids(out), left)
        invariant |out| == |Ids(out)|
        decreases left
      {
        var next := Oldest(left);
        IdsAppend(out, next);
        out, left := out + [next], left - {next};
      }
      assert AllPending(rows, runner) - Ids(out) == left;
      TakeableMeans(rows, runner, out);
      rows := Marked(rows, Ids(out), Delivered);
    }

    method Oldest(ids: set<Id>) returns (oldest: Id)
      requires ids != {} && ids <= rows.Keys
      ensures oldest in ids && forall q :: q in ids ==> rows[oldest].createdAt <= rows[q].createdAt
    {
      oldest :| oldest in ids;
      var left := ids - {oldest};
      while left != {}
        invariant left <= ids && oldest in ids
        invariant forall q :: q in ids - left ==> rows[oldest].createdAt <= rows[q].createdAt
        decreases left
      {
        var id :| id in left;
        left := left - {id};
        if rows[id].createdAt < rows[oldest].createdAt {
          oldest := id;
        }
      }
    }

    /** Closes one of the runner's own open commands, and says whether there was one to close. */
    method CompleteCommand(runner: Runner, id: Id, failed: bool) returns (found: bool)
      modifies this
      ensures found <==> id in old(rows) && old(rows)[id].runner == runner &&
                         (old(rows)[id].status == Pending || old(rows)[id].status == Delivered)
      ensures rows == if found then Marked(old(rows), {id}, if failed then Failed else Done) else old(rows)
    {
      if id !in rows || rows[id].runner != runner || !rows[id].status.Open() {
        return false;
      }
      rows := rows[id := rows[id].(status := if failed then Failed else Done)];
      return true;
    }

    /** Fails what has been open too long, and counts it; an age that is not positive is an error. */
    method ExpireStaleCommands(now: int, olderThan: int) returns (expired: Option<nat>)
      modifies this
      ensures olderThan <= 0 ==> expired == None && rows == old(rows)
      ensures olderThan > 0 ==>
                && expired == Some(|Stale(old(rows), now, olderThan)|)
                && rows == Marked(old(rows), Stale(old(rows), now, olderThan), Failed)
    {
      if olderThan <= 0 {
        return None;
      }
      var stale := Stale(rows, now, olderThan);
      rows := Marked(rows, stale, Failed);
      return Some(|stale|);
    }
  }
}
