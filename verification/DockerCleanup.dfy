/**
 * Cleaning up after a job: the snapshot diff and the removal loops of
 * internal/docker/docker.go, and the job hooks of internal/cli/hook.go.
 */
module DockerCleanup {
  import opened Options

  type Id = string

  datatype Kind = Container | Volume | Network {
    /** Containers hold volumes and attach to networks, so they go first. */
    function Rank(): nat { match this case Container => 0 case Volume => 1 case Network => 2 }
  }

  /** What existed in Docker at one moment. */
  datatype Snapshot = Snapshot(containers: seq<Id>, volumes: seq<Id>, networks: seq<Id>) {
    function Of(kind: Kind): seq<Id> {
      match kind case Container => containers case Volume => volumes case Network => networks
    }

    predicate Holds(kind: Kind, id: Id) { id in Of(kind) }

    predicate Empty() { |containers| == 0 && |volumes| == 0 && |networks| == 0 }

    function Total(): nat { |containers| + |volumes| + |networks| }
  }

  const NOTHING: Snapshot := Snapshot([], [], [])

  /** One invocation of the docker command. */
  datatype Call = Remove(kind: Kind, id: Id) | PruneImages {
    function Rank(): nat { if PruneImages? then 3 else kind.Rank() }
  }

  /** What is in the first n of `from` but not in `without`, in the order of `from`. */
  function Kept(from: seq<Id>, without: seq<Id>, n: nat): seq<Id>
    requires n <= |from|
  {
    if n == 0 then []
    else if from[n - 1] in without then Kept(from, without, n - 1)
    else Kept(from, without, n - 1) + [from[n - 1]]
  }

  function Lacking(from: seq<Id>, without: seq<Id>): seq<Id> { Kept(from, without, |from|) }

  function Added(base: Snapshot, next: Snapshot): Snapshot {
    Snapshot(Lacking(next.containers, base.containers),
             Lacking(next.volumes, base.volumes),
             Lacking(next.networks, base.networks))
  }

  /** The positions kept, which say what `Kept` returns element by element. */
  function Positions(from: seq<Id>, without: seq<Id>, n: nat): seq<nat>
    requires n <= |from|
  {
    if n == 0 then []
    else if from[n - 1] in without then Positions(from, without, n - 1)
    else Positions(from, without, n - 1) + [n - 1]
  }

  lemma {:induction false} KeptIsInOrder(from: seq<Id>, without: seq<Id>, n: nat)
    requires n <= |from|
    ensures var at := Positions(from, without, n);
            && |Kept(from, without, n)| == |at|
            && (forall i :: 0 <= i < |at| ==> at[i] < n && Kept(from, without, n)[i] == from[at[i]])
            && (forall i, j :: 0 <= i < j < |at| ==> at[i] < at[j])
  {
    if n > 0 {
      KeptIsInOrder(from, without, n - 1);
      var at, before := Positions(from, without, n), Positions(from, without, n - 1);
      forall i | 0 <= i < |at| ensures at[i] < n && Kept(from, without, n)[i] == from[at[i]] {
        assert i == |before| || at[i] == before[i];
      }
    }
  }

  lemma {:induction false} KeptIsWhatIsLacking(from: seq<Id>, without: seq<Id>, n: nat, id: Id)
    requires n <= |from|
    ensures id in Kept(from, without, n) <==> id !in without && id in from[..n]
    ensures id !in without ==> multiset(Kept(from, without, n))[id] == multiset(from[..n])[id]
  {
    if n > 0 {
      KeptIsWhatIsLacking(from, without, n - 1, id);
      assert from[..n] == from[..n - 1] + [from[n - 1]];
    }
  }

  predicate Distinct(s: seq<Id>) { forall i, j :: 0 <= i < j < |s| ==> s[i] != s[j] }

  lemma KeptStaysDistinct(from: seq<Id>, without: seq<Id>, n: nat)
    requires n <= |from| && Distinct(from)
    ensures Distinct(Kept(from, without, n))
  {
    KeptIsInOrder(from, without, n);
  }

  function Removals(kind: Kind, ids: seq<Id>): seq<Call> {
    seq(|ids|, i requires 0 <= i < |ids| => Remove(kind, ids[i]))
  }

  function Objects(snap: Snapshot): seq<Call> {
    Removals(Container, snap.containers) + Removals(Volume, snap.volumes) + Removals(Network, snap.networks)
  }

  /** Every command Remove runs, in order. */
  function Calls(snap: Snapshot, prune: bool): seq<Call> {
    Objects(snap) + if prune then [PruneImages] else []
  }

  /** What cleanup runs, given what was recorded at the start and what there is at the end. */
  function CleanupCalls(recorded: Snapshot, after: Snapshot, prune: bool): seq<Call> {
    var added := Added(recorded, after);
    if added.Empty() then [] else Calls(added, prune)
  }

  lemma InCalls(snap: Snapshot, prune: bool, kind: Kind, id: Id)
    ensures Remove(kind, id) in Calls(snap, prune) <==> snap.Holds(kind, id)
  {
    InRemovals(Container, snap.containers, Remove(kind, id));
    InRemovals(Volume, snap.volumes, Remove(kind, id));
    InRemovals(Network, snap.networks, Remove(kind, id));
  }

  lemma InRemovals(kind: Kind, ids: seq<Id>, call: Call)
    ensures call in Removals(kind, ids) <==> call.Remove? && call.kind == kind && call.id in ids
  {
    if call.Remove? && call.kind == kind && call.id in ids {
      var i :| 0 <= i < |ids| && ids[i] == call.id;
      assert Removals(kind, ids)[i] == call;
    }
  }

  /** Cleanup attempts to remove exactly what is there now and was not recorded. */
  lemma AttemptsExactlyTheAdded(recorded: Snapshot, after: Snapshot, prune: bool, kind: Kind, id: Id)
    ensures Remove(kind, id) in CleanupCalls(recorded, after, prune) <==>
            after.Holds(kind, id) && !recorded.Holds(kind, id)
  {
    var added := Added(recorded, after);
    var from := after.Of(kind);
    assert added.Of(kind) == Lacking(from, recorded.Of(kind));
    KeptIsWhatIsLacking(from, recorded.Of(kind), |from|, id);
    assert from[..|from|] == from;
    InCalls(added, prune, kind, id);
    assert added.Empty() ==> !added.Holds(kind, id);
  }

  /** Containers go before volumes, volumes before networks, images last; nothing is attempted twice. */
  lemma AttemptsAreOrdered(recorded: Snapshot, after: Snapshot, prune: bool, i: nat, j: nat)
    requires Distinct(after.containers) && Distinct(after.volumes) && Distinct(after.networks)
    requires i < j < |CleanupCalls(recorded, after, prune)|
    ensures var calls := CleanupCalls(recorded, after, prune);
            calls[i].Rank() <= calls[j].Rank() && calls[i] != calls[j]
  {
    KeptStaysDistinct(after.containers, recorded.containers, |after.containers|);
    KeptStaysDistinct(after.volumes, recorded.volumes, |after.volumes|);
    KeptStaysDistinct(after.networks, recorded.networks, |after.networks|);
  }

  /** Problems: the calls among the first n that failed, in order. */
  function Failing(calls: seq<Call>, fails: set<nat>, n: nat): seq<Call>
    requires n <= |calls|
  {
    if n == 0 then []
    else if n - 1 in fails then Failing(calls, fails, n - 1) + [calls[n - 1]]
    else Failing(calls, fails, n - 1)
  }

  /** How many of calls m..n succeeded. */
  function Succeeding(fails: set<nat>, m: nat, n: nat): nat
    requires m <= n
    decreases n
  {
    if n == m then 0 else Succeeding(fails, m, n - 1) + if n - 1 in fails then 0 else 1
  }

  lemma {:induction false} FailingPrefix(a: seq<Call>, b: seq<Call>, fails: set<nat>, n: nat)
    requires n <= |a| && a <= b
    ensures Failing(a, fails, n) == Failing(b, fails, n)
  {
    if n > 0 { FailingPrefix(a, b, fails, n - 1); }
  }

  lemma {:induction false} EveryCallIsCounted(calls: seq<Call>, fails: set<nat>, n: nat)
    requires n <= |calls|
    ensures Succeeding(fails, 0, n) + |Failing(calls, fails, n)| == n
  {
    if n > 0 { EveryCallIsCounted(calls, fails, n - 1); }
  }

  lemma {:induction false} SucceedingSplits(fails: set<nat>, k: nat, m: nat, n: nat)
    requires k <= m <= n
    ensures Succeeding(fails, k, n) == Succeeding(fails, k, m) + Succeeding(fails, m, n)
    decreases n
  {
    if m < n { SucceedingSplits(fails, k, m, n - 1); }
  }

  function Places(fails: set<nat>, m: nat, n: nat): set<nat> { set i: nat | m <= i < n && i !in fails }

  /** What succeeds is what does not fail, one for one. */
  lemma {:induction false} SucceedingAreThoseThatDoNotFail(fails: set<nat>, m: nat, n: nat)
    requires m <= n
    ensures Succeeding(fails, m, n) == |Places(fails, m, n)|
    decreases n
  {
    if m < n {
      SucceedingAreThoseThatDoNotFail(fails, m, n - 1);
      assert Places(fails, m, n) == Places(fails, m, n - 1) + if n - 1 in fails then {} else {n - 1};
    }
  }

  /** Problems are the calls that fail, and nothing else. */
  lemma {:induction false} ProblemsAreTheCallsThatFail(calls: seq<Call>, fails: set<nat>, n: nat, c: Call)
    requires n <= |calls|
    ensures c in Failing(calls, fails, n) <==> exists i :: 0 <= i < n && i in fails && calls[i] == c
  {
    if n > 0 { ProblemsAreTheCallsThatFail(calls, fails, n - 1, c); }
  }

  lemma SucceedingInThree(fails: set<nat>, c: nat, v: nat, n: nat)
    ensures Succeeding(fails, 0, c + v + n) ==
            Succeeding(fails, 0, c) + Succeeding(fails, c, c + v) + Succeeding(fails, c + v, c + v + n)
  {
    SucceedingSplits(fails, 0, c, c + v);
    SucceedingSplits(fails, 0, c + v, c + v + n);
  }

  lemma FailingLast(calls: seq<Call>, last: Call, fails: set<nat>)
    ensures Failing(calls + [last], fails, |calls| + 1) ==
            Failing(calls, fails, |calls|) + if |calls| in fails then [last] else []
  {
    FailingPrefix(calls, calls + [last], fails, |calls|);
  }

  datatype CleanupResult = CleanupResult(
    containers: nat, volumes: nat, networks: nat, images: nat, problems: seq<Call>)
  {
    function Removed(): nat { containers + volumes + networks + images }
  }

  /**
   * What the daemon holds. `anonymous` are the unnamed volumes of a container,
   * which go with it because containers are removed with their volumes.
   */
  datatype Daemon = Daemon(containers: set<Id>, volumes: set<Id>, networks: set<Id>, anonymous: map<Id, set<Id>>) {
    function Unnamed(container: Id): set<Id> { if container in anonymous then anonymous[container] else {} }

    /** What a call takes away when it works. */
    function Without(call: Call): Daemon {
      match call
      case PruneImages => this
      case Remove(Container, id) => this.(containers := containers - {id}, volumes := volumes - Unnamed(id))
      case Remove(Volume, id) => this.(volumes := volumes - {id})
      case Remove(Network, id) => this.(networks := networks - {id})
    }

    /** Holds no more than `d`, of the same containers' volumes. */
    predicate Within(d: Daemon) {
      containers <= d.containers && volumes <= d.volumes && networks <= d.networks && anonymous == d.anonymous
    }
  }

  /** A call that works takes away its object; one that fails, any part of it. */
  predicate Answers(d: Daemon, call: Call, failed: bool, d': Daemon) {
    if failed then d'.Within(d) && d.Without(call).Within(d') else d' == d.Without(call)
  }

  function Named(calls: seq<Call>, kind: Kind, n: nat): set<Id>
    requires n <= |calls|
  {
    if n == 0 then {}
    else if calls[n - 1].Remove? && calls[n - 1].kind == kind then Named(calls, kind, n - 1) + {calls[n - 1].id}
    else Named(calls, kind, n - 1)
  }

  function UnnamedOf(d: Daemon, containers: set<Id>): set<Id> { set c, v | c in containers && v in d.Unnamed(c) :: v }

  ghost predicate Answered(ds: seq<Daemon>, calls: seq<Call>, fails: set<nat>) {
    |ds| == |calls| + 1 && forall i :: 0 <= i < |calls| ==> Answers(ds[i], calls[i], i in fails, ds[i + 1])
  }

  /** What is left once everything the first n calls name is gone. */
  function Leftover(d: Daemon, calls: seq<Call>, n: nat): Daemon
    requires n <= |calls|
  {
    d.(containers := d.containers - Named(calls, Container, n),
       volumes := d.volumes - Named(calls, Volume, n) - UnnamedOf(d, Named(calls, Container, n)),
       networks := d.networks - Named(calls, Network, n))
  }

  lemma LeftoverStep(d: Daemon, calls: seq<Call>, n: nat)
    requires n < |calls|
    ensures Leftover(d, calls, n + 1) == Leftover(d, calls, n).Without(calls[n])
  {
    var before, after := Named(calls, Container, n), Named(calls, Container, n + 1);
    match calls[n]
    case Remove(Container, id) =>
      assert UnnamedOf(d, after) == UnnamedOf(d, before) + d.Unnamed(id);
    case _ =>
      assert after == before;
  }

  lemma {:induction false} CallsTakeNoMore(ds: seq<Daemon>, calls: seq<Call>, fails: set<nat>, n: nat)
    requires Answered(ds, calls, fails) && n <= |calls|
    ensures ds[n].Within(ds[0]) && Leftover(ds[0], calls, n).Within(ds[n])
    ensures fails == {} ==> ds[n] == Leftover(ds[0], calls, n)
  {
    if n == 0 {
      assert UnnamedOf(ds[0], {}) == {};
    } else {
      CallsTakeNoMore(ds, calls, fails, n - 1);
      LeftoverStep(ds[0], calls, n - 1);
      assert Answers(ds[n - 1], calls[n - 1], n - 1 in fails, ds[n]);
    }
  }

  lemma {:induction false} NamedAreCalled(calls: seq<Call>, kind: Kind, n: nat, id: Id)
    requires n <= |calls|
    ensures id in Named(calls, kind, n) <==> Remove(kind, id) in calls[..n]
  {
    if n > 0 {
      NamedAreCalled(calls, kind, n - 1, id);
      assert calls[..n] == calls[..n - 1] + [calls[n - 1]];
    }
  }

  function Elements(s: seq<Id>): set<Id> { set id | id in s }

  ghost predicate Listed(d: Daemon, snap: Snapshot) {
    && d.containers == Elements(snap.containers) && d.volumes == Elements(snap.volumes)
    && d.networks == Elements(snap.networks)
  }

  /** What was recorded and is still there, but for the unnamed volumes of containers that were not. */
  function Remains(d: Daemon, recorded: Snapshot): Daemon {
    d.(containers := d.containers * Elements(recorded.containers),
       volumes := d.volumes * Elements(recorded.volumes) - UnnamedOf(d, d.containers - Elements(recorded.containers)),
       networks := d.networks * Elements(recorded.networks))
  }

  lemma CleanupLeaves(d: Daemon, recorded: Snapshot, after: Snapshot, prune: bool)
    requires Listed(d, after)
    ensures var calls := CleanupCalls(recorded, after, prune);
            Leftover(d, calls, |calls|) == Remains(d, recorded)
  {
    var calls := CleanupCalls(recorded, after, prune);
    assert calls[..|calls|] == calls;
    forall kind, id ensures id in Named(calls, kind, |calls|) <==> after.Holds(kind, id) && !recorded.Holds(kind, id) {
      NamedAreCalled(calls, kind, |calls|, id);
      AttemptsExactlyTheAdded(recorded, after, prune, kind, id);
    }
    assert Named(calls, Container, |calls|) == d.containers - Elements(recorded.containers);
    assert Named(calls, Volume, |calls|) == d.volumes - Elements(recorded.volumes);
    assert Named(calls, Network, |calls|) == d.networks - Elements(recorded.networks);
  }

  /**
   * Whatever goes wrong, cleanup spares everything recorded that is still
   * there, except unnamed volumes that a removed container had mounted; and
   * when nothing goes wrong, that is exactly what it leaves.
   */
  lemma CleanupConserves(ds: seq<Daemon>, recorded: Snapshot, after: Snapshot, prune: bool, fails: set<nat>)
    requires Answered(ds, CleanupCalls(recorded, after, prune), fails) && Listed(ds[0], after)
    ensures var last := ds[|ds| - 1];
            && Remains(ds[0], recorded).Within(last) && last.Within(ds[0])
            && (fails == {} ==> last == Remains(ds[0], recorded))
  {
    var calls := CleanupCalls(recorded, after, prune);
    CallsTakeNoMore(ds, calls, fails, |calls|);
    CleanupLeaves(ds[0], recorded, after, prune);
  }

  function Prefix(s: seq<Id>, n: nat): set<Id>
    requires n <= |s|
  {
    if n == 0 then {} else Prefix(s, n - 1) + {s[n - 1]}
  }

  lemma {:induction false} InPrefix(s: seq<Id>, n: nat, id: Id)
    requires n <= |s|
    ensures id in Prefix(s, n) <==> id in s[..n]
  {
    if n > 0 {
      InPrefix(s, n - 1, id);
      assert s[..n] == s[..n - 1] + [s[n - 1]];
    }
  }

  lemma {:induction false} DistinctSize(s: seq<Id>, n: nat)
    requires n <= |s| && Distinct(s)
    ensures |Prefix(s, n)| == n
  {
    if n > 0 {
      DistinctSize(s, n - 1);
      InPrefix(s, n - 1, s[n - 1]);
      assert s[n - 1] !in s[..n - 1];
    }
  }

  lemma LackingSize(from: seq<Id>, without: seq<Id>)
    requires Distinct(from)
    ensures |Lacking(from, without)| == |Elements(from) - Elements(without)|
  {
    var kept := Lacking(from, without);
    KeptStaysDistinct(from, without, |from|);
    DistinctSize(kept, |kept|);
    assert from[..|from|] == from && kept[..|kept|] == kept;
    forall id ensures id in Prefix(kept, |kept|) <==> id in Elements(from) - Elements(without) {
      InPrefix(kept, |kept|, id);
      KeptIsWhatIsLacking(from, without, |from|, id);
    }
    assert Prefix(kept, |kept|) == Elements(from) - Elements(without);
  }

  /** How much there is to do: what is there now and was not recorded, and one prune if asked for. */
  lemma AttemptsAreCounted(recorded: Snapshot, after: Snapshot, prune: bool)
    requires Distinct(after.containers) && Distinct(after.volumes) && Distinct(after.networks)
    ensures var added := |Elements(after.containers) - Elements(recorded.containers)|
                       + |Elements(after.volumes) - Elements(recorded.volumes)|
                       + |Elements(after.networks) - Elements(recorded.networks)|;
            |CleanupCalls(recorded, after, prune)| == if added == 0 then 0 else added + if prune then 1 else 0
  {
    LackingSize(after.containers, recorded.containers);
    LackingSize(after.volumes, recorded.volumes);
    LackingSize(after.networks, recorded.networks);
  }

  /** The job file, of which only the Docker snapshot matters here. */
  datatype JobFile = Missing | Corrupt | Holding(docker: Snapshot)

  /** What a hook that reads the file takes to have been there when the job started. */
  function Recorded(file: JobFile, readable: bool): Snapshot {
    if readable && file.Holding? then file.docker else NOTHING
  }

  /** The file after the start hook: a snapshot that failed is written as an empty one. */
  function Started(file: JobFile, cleanup: bool, taken: Option<Snapshot>, writes: bool): JobFile {
    if !writes then file else Holding(if cleanup && taken.Some? then taken.value else NOTHING)
  }

  /** The file after the completed hook, which forgets the snapshot if it gets to write. */
  function Completed(file: JobFile, writes: bool): JobFile { if writes then Holding(NOTHING) else file }

  /** No attempt is made on anything that was there before the job. */
  ghost predicate Spares(before: Snapshot, calls: seq<Call>) {
    forall kind, id :: before.Holds(kind, id) ==> Remove(kind, id) !in calls
  }

  /** Cleanup spares what was there before exactly when all of it that is still there was recorded. */
  lemma SparesExactlyWhatWasRecorded(before: Snapshot, recorded: Snapshot, after: Snapshot, prune: bool)
    ensures Spares(before, CleanupCalls(recorded, after, prune)) <==>
            forall kind, id :: before.Holds(kind, id) && after.Holds(kind, id) ==> recorded.Holds(kind, id)
  {
    forall kind, id
      ensures Remove(kind, id) in CleanupCalls(recorded, after, prune) <==>
              after.Holds(kind, id) && !recorded.Holds(kind, id)
    {
      AttemptsExactlyTheAdded(recorded, after, prune, kind, id);
    }
  }

  /** The file still holds a snapshot, of some earlier job, with everything in it that was and is there. */
  ghost predicate StaleCovers(file: JobFile, before: Snapshot, after: Snapshot) {
    && file.Holding?
    && forall kind, id :: before.Holds(kind, id) && after.Holds(kind, id) ==> file.docker.Holds(kind, id)
  }

  /**
   * On a machine where something that was there before the job is still there
   * at the end, cleanup leaves all of that alone exactly when the file can be
   * read back and either this job's snapshot was taken and written, or the write
   * failed over a snapshot of an earlier job that covers it. A snapshot that
   * fails does not stop the cleanup, as the start hook says it does: it turns
   * everything on the machine into the job's.
   */
  lemma SparedExactlyWhenRecorded(file: JobFile, before: Snapshot, taken: bool, writes: bool, readable: bool,
                                  after: Snapshot, prune: bool)
    requires exists kind, id :: before.Holds(kind, id) && after.Holds(kind, id)
    ensures var started := Started(file, true, if taken then Some(before) else None, writes);
            Spares(before, CleanupCalls(Recorded(started, readable), after, prune)) <==>
            readable && if writes then taken else StaleCovers(file, before, after)
  {
    var started := Started(file, true, if taken then Some(before) else None, writes);
    var recorded := Recorded(started, readable);
    SparesExactlyWhatWasRecorded(before, recorded, after, prune);
    var kind, id :| before.Holds(kind, id) && after.Holds(kind, id);
    assert !NOTHING.Holds(kind, id);
  }

  /** The first job of all, and one after a completed hook that got to write, find nothing stale. */
  lemma NothingStaleAfterAFinishedJob(file: JobFile, before: Snapshot, after: Snapshot)
    requires exists kind, id :: before.Holds(kind, id) && after.Holds(kind, id)
    ensures !StaleCovers(Completed(file, true), before, after) && !StaleCovers(Missing, before, after)
  {
    var kind, id :| before.Holds(kind, id) && after.Holds(kind, id);
    assert !NOTHING.Holds(kind, id);
  }

  /** Two jobs in a row: the second spares what was there before it exactly when its own snapshot made it. */
  lemma NextJobIsSparedExactlyWhenRecorded(file: JobFile, before: Snapshot, taken: bool, writes: bool, readable: bool,
                                           after: Snapshot, prune: bool)
    requires exists kind, id :: before.Holds(kind, id) && after.Holds(kind, id)
    ensures var started := Started(Completed(file, true), true, if taken then Some(before) else None, writes);
            Spares(before, CleanupCalls(Recorded(started, readable), after, prune)) <==> taken && writes && readable
  {
    SparedExactlyWhenRecorded(Completed(file, true), before, taken, writes, readable, after, prune);
    NothingStaleAfterAFinishedJob(file, before, after);
  }

  /** The hooks' view of Docker: every command run and every problem met. */
  class Hooks {
    var file: JobFile
    var calls: seq<Call>

    constructor ()
      ensures file == Missing && calls == []
    {
      file, calls := Missing, [];
    }

    /** The loop that builds the lookup, then the one that filters. */
    method Difference(from: seq<Id>, without: seq<Id>) returns (out: seq<Id>)
      ensures out == Lacking(from, without)
    {
      out := [];
      if |from| == 0 {
        return;
      }
      var exclude: set<Id> := {};
      for i := 0 to |without|
        invariant forall id :: id in exclude <==> id in without[..i]
      {
        exclude := exclude + {without[i]};
      }
      for i := 0 to |from|
        invariant out == Kept(from, without, i)
      {
        if from[i] !in exclude {
          out := out + [from[i]];
        }
      }
    }

    method AddedSince(base: Snapshot, next: Snapshot) returns (added: Snapshot)
      ensures added == Added(base, next)
    {
      var containers := Difference(next.containers, base.containers);
      var volumes := Difference(next.volumes, base.volumes);
      var networks := Difference(next.networks, base.networks);
      added := Snapshot(containers, volumes, networks);
    }

    /** One removal loop: calls are numbered from `first`, and those in `fails` fail. */
    method RemoveEach(kind: Kind, ids: seq<Id>, first: nat, fails: set<nat>,
                      ghost sofar: seq<Call>, problems: seq<Call>)
      returns (removed: nat, out: seq<Call>)
      requires |sofar| == first && problems == Failing(sofar, fails, first)
      modifies this`calls
      ensures calls == old(calls) + Removals(kind, ids)
      ensures removed == Succeeding(fails, first, first + |ids|)
      ensures out == Failing(sofar + Removals(kind, ids), fails, first + |ids|)
    {
      removed, out := 0, problems;
      ghost var all := sofar + Removals(kind, ids);
      FailingPrefix(sofar, all, fails, first);
      for i := 0 to |ids|
        invariant calls == old(calls) + Removals(kind, ids)[..i]
        invariant removed == Succeeding(fails, first, first + i)
        invariant out == Failing(all, fails, first + i)
      {
        calls := calls + [Remove(kind, ids[i])];
        if first + i in fails {
          out := out + [Remove(kind, ids[i])];
        } else {
          removed := removed + 1;
        }
      }
      assert Removals(kind, ids)[..|ids|] == Removals(kind, ids);
    }

    /** The three loops, one kind after another. */
    method RemoveObjects(snap: Snapshot, fails: set<nat>) returns (result: CleanupResult)
      modifies this`calls
      ensures calls == old(calls) + Objects(snap)
      ensures result.problems == Failing(Objects(snap), fails, snap.Total()) && result.images == 0
      ensures var c, v, n := |snap.containers|, |snap.volumes|, |snap.networks|;
              && result.containers == Succeeding(fails, 0, c)
              && result.volumes == Succeeding(fails, c, c + v)
              && result.networks == Succeeding(fails, c + v, c + v + n)
    {
      var c, v := |snap.containers|, |snap.volumes|;
      ghost var first := Removals(Container, snap.containers);
      var containers, problems := RemoveEach(Container, snap.containers, 0, fails, [], []);
      assert [] + first == first;
      var volumes, networks;
      volumes, problems := RemoveEach(Volume, snap.volumes, c, fails, first, problems);
      ghost var second := first + Removals(Volume, snap.volumes);
      networks, problems := RemoveEach(Network, snap.networks, c + v, fails, second, problems);
      result := CleanupResult(containers, volumes, networks, 0, problems);
    }

    /** Removes what it can, and reports what it could not. */
    method RemoveSnapshot(snap: Snapshot, prune: bool, fails: set<nat>) returns (result: CleanupResult)
      modifies this`calls
      ensures calls == old(calls) + Calls(snap, prune)
      ensures result.problems == Failing(Calls(snap, prune), fails, |Calls(snap, prune)|)
      ensures result.Removed() + |result.problems| == |Calls(snap, prune)|
      ensures var c, v, n := |snap.containers|, |snap.volumes|, |snap.networks|;
              && result.containers == Succeeding(fails, 0, c)
              && result.volumes == Succeeding(fails, c, c + v)
              && result.networks == Succeeding(fails, c + v, c + v + n)
              && result.images == if prune && snap.Total() !in fails then 1 else 0
      // Counted as removed are the calls that do not fail, and named as problems those that do
      ensures var c, v, n := |snap.containers|, |snap.volumes|, |snap.networks|;
              && result.containers == |Places(fails, 0, c)| && result.volumes == |Places(fails, c, c + v)|
              && result.networks == |Places(fails, c + v, c + v + n)|
      ensures forall call :: call in result.problems <==>
                exists i :: 0 <= i < |Calls(snap, prune)| && i in fails && Calls(snap, prune)[i] == call
    {
      result := RemoveObjects(snap, fails);
      SucceedingAreThoseThatDoNotFail(fails, 0, |snap.containers|);
      SucceedingAreThoseThatDoNotFail(fails, |snap.containers|, |snap.containers| + |snap.volumes|);
      SucceedingAreThoseThatDoNotFail(fails, |snap.containers| + |snap.volumes|, snap.Total());
      forall call ensures call in Failing(Calls(snap, prune), fails, |Calls(snap, prune)|) <==>
          exists i :: 0 <= i < |Calls(snap, prune)| && i in fails && Calls(snap, prune)[i] == call
      {
        ProblemsAreTheCallsThatFail(Calls(snap, prune), fails, |Calls(snap, prune)|, call);
      }
      EveryCallIsCounted(Objects(snap), fails, snap.Total());
      SucceedingInThree(fails, |snap.containers|, |snap.volumes|, |snap.networks|);
      if prune {
        FailingLast(Objects(snap), PruneImages, fails);
        calls := calls + [PruneImages];
        if snap.Total() in fails {
          result := result.(problems := result.problems + [PruneImages]);
        } else {
          result := result.(images := 1);
        }
      } else {
        assert Calls(snap, prune) == Objects(snap);
      }
    }

    method HookStarted(cleanup: bool, taken: Option<Snapshot>, writes: bool)
      modifies this`file
      ensures file == Started(old(file), cleanup, taken, writes)
      ensures !writes ==> file == old(file)
      ensures writes && cleanup && taken.Some? ==> file == Holding(taken.value)
      ensures writes && !(cleanup && taken.Some?) ==> file == Holding(Snapshot([], [], []))
    {
      var docker := NOTHING;
      if cleanup && taken.Some? {
        docker := taken.value;
      }
      if writes {
        file := Holding(docker);
      }
    }

    /** Cleans up if it can see what there is, then forgets the snapshot whatever happened. */
    method HookCompleted(cleanup: bool, readable: bool, after: Option<Snapshot>, prune: bool,
                         fails: set<nat>, writes: bool)
      modifies this
      ensures calls == old(calls) + if cleanup && after.Some?
                                    then CleanupCalls(Recorded(old(file), readable), after.value, prune) else []
      ensures file == Completed(old(file), writes)
      ensures !(cleanup && after.Some?) ==> calls == old(calls)
      ensures writes ==> file == Holding(Snapshot([], [], []))
    {
      var previous := if readable && file.Holding? then file.docker else NOTHING;
      if cleanup && after.Some? {
        var added := AddedSince(previous, after.value);
        if !added.Empty() {
          var _ := RemoveSnapshot(added, prune, fails);
        }
      }
      if writes {
        file := Holding(NOTHING);
      }
    }
  }
}
