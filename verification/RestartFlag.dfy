/**
 * The two fields `Run` and `Restart` share under the supervisor's mutex, and
 * every interleaving of the two at lock granularity:
 * internal/supervisor/supervisor.go, `setCurrent`, `takeRestartFlag`, `Restart`.
 */
module RestartFlag {
  import opened Options

  /** What the mutex protects. Children are numbered in launch order. */
  datatype Shared = Shared(current: Option<nat>, restarting: bool) {
    /** `setCurrent(proc)`. */
    function Install(child: nat): Shared { Shared(Some(child), false) }

    /** `setCurrent(nil)`: the flag is left as it is. */
    function Clear(): Shared { this.(current := None) }

    /** `takeRestartFlag`, whose answer is `restarting` before the step. */
    function Take(): Shared { this.(restarting := false) }

    /** The locked part of `Restart`, which answers whether anything is running. */
    function Request(): Shared {
      if current.None? then this else this.(restarting := true)
    }
  }

  const IDLE: Shared := Shared(None, false)

  /** Where `Run` stands between its own critical sections. */
  datatype Place = Between | Launched | Up | Exited | Taken(asked: bool)

  /** One atomic step of `Run` or of some caller of `Restart`. */
  datatype Step =
    | Launch
    | InstallChild
    | ChildExits
    | TakeFlag
    | ClearChild
    | RequestRestart   // a Restart call locks while a child is current
    | RequestNothing   // a Restart call locks while nothing is, and returns false
    | StopDelivered    // a Restart call that locked now stops its child and returns true

  /**
   * `calls` counts the Restart calls between their unlock and their return, in
   * whatever order they come back; `returned` counts those that came back true;
   * `excused` are the children whose exit was put down to an operator.
   */
  datatype State = State(
    place: Place,
    child: nat,
    shared: Shared,
    calls: nat,
    returned: nat,
    excused: seq<nat>
  )

  const START: State := State(Between, 0, IDLE, 0, 0, [])

  predicate Enabled(s: State, step: Step) {
    match step
    case Launch => s.place.Between?
    case InstallChild => s.place.Launched?
    case ChildExits => s.place.Up?
    case TakeFlag => s.place.Exited?
    case ClearChild => s.place.Taken?
    case RequestRestart => s.shared.current.Some?
    case RequestNothing => s.shared.current.None?
    case StopDelivered => s.calls > 0
  }

  function Apply(s: State, step: Step): State
    requires Enabled(s, step)
  {
    match step
    case Launch => s.(place := Launched, child := s.child + 1)
    case InstallChild => s.(place := Up, shared := s.shared.Install(s.child))
    case ChildExits => s.(place := Exited)
    case TakeFlag => s.(place := Taken(s.shared.restarting), shared := s.shared.Take())
    case ClearChild =>
      s.(place := Between, shared := s.shared.Clear(),
         excused := if s.place.asked then s.excused + [s.child] else s.excused)
    case RequestRestart => s.(shared := s.shared.Request(), calls := s.calls + 1)
    case RequestNothing => s.(shared := s.shared.Request())
    case StopDelivered => s.(calls := s.calls - 1, returned := s.returned + 1)
  }

  /** The state an interleaving leads to, when every step of it is possible in turn. */
  function After(steps: seq<Step>): Option<State> {
    if steps == [] then Some(START) else
    var before := After(steps[..|steps| - 1]);
    var step := steps[|steps| - 1];
    if before.Some? && Enabled(before.value, step) then Some(Apply(before.value, step)) else None
  }

  ghost predicate Possible(steps: seq<Step>) { After(steps).Some? }

  lemma {:induction false} PrefixPossible(steps: seq<Step>, i: nat)
    requires Possible(steps) && i <= |steps|
    ensures Possible(steps[..i])
  {
    if i < |steps| {
      PrefixPossible(steps[..|steps| - 1], i);
      assert steps[..|steps| - 1][..i] == steps[..i];
    } else {
      assert steps[..i] == steps;
    }
  }

  /** How many steps had been taken when the latest child was installed. */
  function LastInstall(steps: seq<Step>): (i: nat)
    ensures i <= |steps|
    ensures i > 0 ==> steps[i - 1] == InstallChild
    ensures forall j :: i <= j < |steps| ==> steps[j] != InstallChild
  {
    if steps == [] then 0
    else if steps[|steps| - 1] == InstallChild then |steps|
    else LastInstall(steps[..|steps| - 1])
  }

  /** A Restart call locked at some step from `from` on. */
  ghost predicate RequestedSince(steps: seq<Step>, from: nat) {
    exists j :: from <= j < |steps| && steps[j] == RequestRestart
  }

  /** While a child is up, and until its flag is taken, the flag says exactly whether a call locked for it. */
  lemma {:induction false} FlagMeansRequestedForThisChild(steps: seq<Step>)
    requires Possible(steps)
    ensures var s := After(steps).value;
            && (s.place.Between? || s.place.Launched? ==> s.shared.current.None?)
            && (s.place.Up? || s.place.Exited? || s.place.Taken? ==> s.shared.current == Some(s.child))
            && (s.place.Up? || s.place.Exited? ==>
                  (s.shared.restarting <==> RequestedSince(steps, LastInstall(steps))))
  {
    if steps != [] {
      var init, step := steps[..|steps| - 1], steps[|steps| - 1];
      FlagMeansRequestedForThisChild(init);
      var i := LastInstall(steps);
      if step != InstallChild {
        if RequestedSince(init, i) {
          var j :| i <= j < |init| && init[j] == RequestRestart;
          assert steps[j] == RequestRestart;
        }
        assert RequestedSince(steps, i) <==> RequestedSince(init, i) || step == RequestRestart by {
          if RequestedSince(steps, i) && step != RequestRestart {
            var j :| i <= j < |steps| && steps[j] == RequestRestart;
            assert init[j] == RequestRestart;
          }
          if step == RequestRestart { assert steps[|init|] == RequestRestart; }
        }
      }
    }
  }

  /**
   * Over every interleaving: when the flag is taken for a child, it is set if
   * and only if some Restart call locked after that very child was installed.
   * A request that lands in the gap between taking the flag and clearing the
   * child, or while nothing runs, excuses nothing later.
   */
  lemma ExcusedExactlyWhenRequested(steps: seq<Step>, i: nat)
    requires Possible(steps) && i < |steps| && steps[i] == TakeFlag
    ensures Possible(steps[..i]) && Possible(steps[..i + 1])
    ensures var before, after := After(steps[..i]).value, After(steps[..i + 1]).value;
            && after.place.Taken? && after.child == before.child
            && (after.place.asked <==>
                  exists j :: LastInstall(steps[..i]) <= j < i && steps[j] == RequestRestart)
    ensures forall j :: LastInstall(steps[..i]) <= j < i ==>
              Possible(steps[..j]) && After(steps[..j]).value.shared.current == Some(After(steps[..i]).value.child)
  {
    var init := steps[..i];
    PrefixPossible(steps, i);
    PrefixPossible(steps, i + 1);
    assert steps[..i + 1][..i] == init;
    FlagMeansRequestedForThisChild(init);
    var last := LastInstall(init);
    assert RequestedSince(init, last) <==> exists j :: last <= j < i && steps[j] == RequestRestart by {
      if exists j :: last <= j < i && steps[j] == RequestRestart {
        var j :| last <= j < i && steps[j] == RequestRestart;
        assert init[j] == RequestRestart;
      }
    }
    forall j | last <= j < i
      ensures Possible(steps[..j]) && After(steps[..j]).value.shared.current == Some(After(init).value.child)
    {
      SameChildSinceInstall(init, j);
      assert init[..j] == steps[..j];
    }
  }

  /** From its installation until its flag is taken, one child stays current. */
  lemma {:induction false} SameChildSinceInstall(steps: seq<Step>, j: nat)
    requires Possible(steps) && LastInstall(steps) <= j <= |steps|
    requires After(steps).value.place.Up? || After(steps).value.place.Exited?
    ensures Possible(steps[..j])
    ensures After(steps[..j]).value.shared.current == Some(After(steps).value.child)
    decreases |steps|
  {
    FlagMeansRequestedForThisChild(steps);
    if j < |steps| {
      var init := steps[..|steps| - 1];
      SameChildSinceInstall(init, j);
      assert init[..j] == steps[..j];
    } else {
      assert steps[..j] == steps;
    }
  }

  function Requests(steps: seq<Step>): nat {
    if steps == [] then 0
    else Requests(steps[..|steps| - 1]) + if steps[|steps| - 1] == RequestRestart then 1 else 0
  }

  /** An exit that is going to be excused, as far as is known. */
  predicate Pending(s: State) {
    s.place == Taken(true) || (s.shared.restarting && (s.place.Up? || s.place.Exited?))
  }

  /**
   * Excused exits never outnumber the Restart calls that will have returned
   * true: those that have, and those still delivering their stop.
   */
  lemma {:induction false} ExcusesArePaidFor(steps: seq<Step>)
    requires Possible(steps)
    ensures var s := After(steps).value;
            && |s.excused| <= s.returned + s.calls == Requests(steps)
            && (Pending(s) ==> |s.excused| < s.returned + s.calls)
  {
    if steps != [] {
      ExcusesArePaidFor(steps[..|steps| - 1]);
    }
  }

  lemma Follow(steps: seq<Step>, step: Step)
    requires Possible(steps) && Enabled(After(steps).value, step)
    ensures After(steps + [step]) == Some(Apply(After(steps).value, step))
  {
    assert (steps + [step])[..|steps|] == steps;
  }

  /** Any number of calls can lock for one child before any of them returns. */
  lemma {:induction false} CallsCanPileUp(c: nat) returns (steps: seq<Step>)
    ensures After(steps) == Some(State(Up, 1, Shared(Some(1), c > 0), c, 0, []))
  {
    if c == 0 {
      steps := [];
      Follow(steps, Launch);
      steps := steps + [Launch];
      Follow(steps, InstallChild);
      steps := steps + [InstallChild];
    } else {
      steps := CallsCanPileUp(c - 1);
      Follow(steps, RequestRestart);
      steps := steps + [RequestRestart];
    }
  }

  /** And its exit be excused before any of them does. */
  lemma ExcuseCanPrecedeTheReturn(c: nat) returns (steps: seq<Step>)
    requires c > 0
    ensures Possible(steps) && After(steps).value.calls == c
    ensures |After(steps).value.excused| == 1 && After(steps).value.returned == 0
  {
    steps := CallsCanPileUp(c);
    Follow(steps, ChildExits);
    steps := steps + [ChildExits];
    Follow(steps, TakeFlag);
    steps := steps + [TakeFlag];
    Follow(steps, ClearChild);
    steps := steps + [ClearChild];
  }

  /**
   * Excused exits never outnumber the calls that returned true, on every
   * interleaving that ends with c calls yet to return, exactly if c is zero:
   * the child can be gone, and excused, before the caller that asked is back.
   */
  lemma ExcusesWithinReturnedExactlyWhenAllAreBack(c: nat)
    ensures (forall steps :: Possible(steps) && After(steps).value.calls == c ==>
               |After(steps).value.excused| <= After(steps).value.returned)
            <==> c == 0
  {
    if c == 0 {
      forall steps | Possible(steps) && After(steps).value.calls == c
        ensures |After(steps).value.excused| <= After(steps).value.returned
      {
        ExcusesArePaidFor(steps);
      }
    } else {
      var steps := ExcuseCanPrecedeTheReturn(c);
      assert |After(steps).value.excused| > After(steps).value.returned;
    }
  }
}
