/** Two runs of module Commands that leave what its theorems say such runs leave. */
module CommandRuns {
  import opened Options
  import opened Commands

  ghost predicate Reachable(s: State) {
    exists steps :: After(steps, |steps|) == Some(s)
  }

  lemma AfterNext(a: seq<Step>, b: seq<Step>, n: nat)
    requires n < |a| && n < |b| && a[n] == b[n] && After(a, n) == After(b, n)
    ensures After(a, n + 1) == After(b, n + 1)
  {
  }

  lemma {:induction false} SamePrefix(a: seq<Step>, b: seq<Step>, n: nat)
    requires n <= |a| <= |b| && forall i :: 0 <= i < |a| ==> a[i] == b[i]
    ensures After(a, n) == After(b, n)
  {
    if n > 0 {
      SamePrefix(a, b, n - 1);
      AfterNext(a, b, n - 1);
    }
  }

  lemma AfterLast(steps: seq<Step>, n: nat, s: State, t: State)
    requires n < |steps| && After(steps, n) == Some(s) && Enabled(s, steps[n]) && t == Apply(s, steps[n])
    ensures After(steps, n + 1) == Some(t)
  {
  }

  lemma Extend(steps: seq<Step>, s: State, step: Step, t: State)
    requires After(steps, |steps|) == Some(s) && Enabled(s, step) && t == Apply(s, step)
    ensures After(steps + [step], |steps| + 1) == Some(t)
  {
    var longer := steps + [step];
    assert longer[|steps|] == step;
    SamePrefix(steps, longer, |steps|);
    AfterLast(longer, |steps|, s, t);
  }

  lemma Witness(steps: seq<Step>, n: nat, s: State)
    requires n == |steps| && After(steps, n) == Some(s)
    ensures Reachable(s)
  {
  }

  lemma Follow(s: State, step: Step)
    requires Reachable(s) && Enabled(s, step)
    ensures Reachable(Apply(s, step))
  {
    var t := Apply(s, step);
    var steps :| After(steps, |steps|) == Some(s);
    Extend(steps, s, step, t);
    Witness(steps + [step], |steps| + 1, t);
  }

  lemma StartIsReachable()
    ensures Reachable(START)
  {
    var none: seq<Step> := [];
    assert After(none, |none|) == Some(START);
  }

  const PENDING: Table := map[0 := Command(0, Pending, 0)]
  const DELIVERED: Table := map[0 := Command(0, Delivered, 0)]

  lemma CommandIsQueued()
    ensures Reachable(START.(table := PENDING))
  {
    StartIsReachable();
    Follow(START, Queue(0, 0, 0));
    assert Apply(START, Queue(0, 0, 0)) == START.(table := PENDING);
  }

  lemma CommandIsTaken()
    ensures Reachable(State(DELIVERED, map[], multiset{0}, multiset{0}, multiset{}, map[]))
  {
    CommandIsQueued();
    var s, picked: set<Id> := START.(table := PENDING), {0};
    assert AllPending(PENDING, 0) == picked;
    Follow(s, Take(0, picked));
    var t := Apply(s, Take(0, picked));
    assert t.table == DELIVERED && t.handed == multiset{0} && t.inFlight == multiset{0};
  }

  /** Nothing need be lost: a result that arrives and is refused leaves a command that was carried out delivered. */
  lemma RefusedResultStaysDelivered()
    ensures exists s ::
              Reachable(s) && 0 in s.performed && !OnItsWay(s, 0) && 0 in s.table && s.table[0].status.Delivered?
  {
    CommandIsTaken();
    var s := State(DELIVERED, map[], multiset{0}, multiset{0}, multiset{}, map[]);
    Follow(s, Perform(0, false));
    var t := Apply(s, Perform(0, false));
    Follow(t, LoseResult(0));
    assert 0 in Apply(t, LoseResult(0)).performed && !OnItsWay(Apply(t, LoseResult(0)), 0);
  }

  lemma BothLook()
    ensures Reachable(START.(callers := map[0 := Look(0, {}), 1 := Look(0, {})]))
  {
    StartIsReachable();
    assert START.table.Keys == {};
    Follow(START, LookUp(0, 0));
    var s := START.(callers := map[0 := Look(0, {})]);
    assert Apply(START, LookUp(0, 0)).callers == s.callers;
    Follow(s, LookUp(1, 0));
    assert Apply(s, LookUp(1, 0)).callers == map[0 := Look(0, {}), 1 := Look(0, {})];
  }

  /** Two calls that both look before either inserts leave a runner with two open commands. */
  lemma TwoCallsCanBothQueue()
    ensures exists s :: Reachable(s) && OpenFor(s.table, 0, 1) && OpenFor(s.table, 0, 2)
  {
    BothLook();
    var s := START.(callers := map[0 := Look(0, {}), 1 := Look(0, {})]);
    Follow(s, Insert(0, 1, 0));
    var t := Apply(s, Insert(0, 1, 0));
    Follow(t, Insert(1, 2, 0));
    assert OpenFor(Apply(t, Insert(1, 2, 0)).table, 0, 1) && OpenFor(Apply(t, Insert(1, 2, 0)).table, 0, 2);
  }
}
