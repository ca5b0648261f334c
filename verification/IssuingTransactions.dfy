/**
 * IssueMachineToken as the two statements it is, each seeing what was committed
 * when it started, with other transactions in between: internal/store/tokens.go.
 */
module IssuingTransactions {
  import opened Options
  import opened Credentials

  /** A transaction past its UPDATE: the live rows that found, and all the rows there were. */
  datatype Tx = Tx(runner: Runner, seen: set<Token>, known: set<Token>)

  /** What is committed, what is not yet, and the credential committed last for each runner. */
  datatype State = State(rows: Table, open: map<nat, Tx>, latest: map<Runner, Token>)

  const START: State := State(map[], map[], map[])

  datatype Step =
    | Update(tx: nat, r: Runner)
    | Commit(tx: nat, t: Token, now: int)
    | Abort(tx: nat)

  predicate Enabled(s: State, step: Step) {
    match step
    case Update(tx, _) => tx !in s.open
    case Commit(tx, t, _) => tx in s.open && t !in s.rows
    case Abort(tx) => tx in s.open
  }

  function Live(m: Table, r: Runner): set<Token> { set t | t in m && LiveFor(m, r, t) }

  /** The rows found are revoked, and the new one is there. */
  function Committed(m: Table, tx: Tx, t: Token, now: int): Table {
    (map u | u in m :: if u in tx.seen then m[u].(revoked := true) else m[u])[t := Row(tx.runner, false, now)]
  }

  function Apply(s: State, step: Step): State
    requires Enabled(s, step)
  {
    match step
    case Update(tx, r) => s.(open := s.open[tx := Tx(r, Live(s.rows, r), s.rows.Keys)])
    case Commit(tx, t, now) =>
      State(Committed(s.rows, s.open[tx], t, now), s.open - {tx}, s.latest[s.open[tx].runner := t])
    case Abort(tx) => s.(open := s.open - {tx})
  }

  /** The state after the first n steps; a step that is not possible does nothing. */
  function After(steps: seq<Step>, n: nat): State
    requires n <= |steps|
  {
    if n == 0 then START
    else
      var s := After(steps, n - 1);
      if Enabled(s, steps[n - 1]) then Apply(s, steps[n - 1]) else s
  }

  /** With nothing in between, it is the one step of module Credentials. */
  lemma AtOnceIsIssue(s: State, tx: nat, r: Runner, t: Token, now: int)
    requires tx !in s.open && t !in s.rows
    ensures Apply(Apply(s, Update(tx, r)), Commit(tx, t, now)).rows == Issue(s.rows, r, t, now)
  {
    var after, issued := Apply(Apply(s, Update(tx, r)), Commit(tx, t, now)).rows, Issue(s.rows, r, t, now);
    assert after.Keys == issued.Keys;
    forall u | u in after ensures after[u] == issued[u] {
      assert u != t ==> (u in Live(s.rows, r) <==> LiveFor(s.rows, r, u));
    }
  }

  /** Another transaction has committed a credential for the runner since this one's UPDATE. */
  predicate Overlapped(s: State, tx: Tx) {
    exists u :: u in s.rows && s.rows[u].runner == tx.runner && u !in tx.known
  }

  ghost predicate LatestIsLive(s: State) {
    forall u :: u in s.rows ==>
      s.rows[u].runner in s.latest && LiveFor(s.rows, s.rows[u].runner, s.latest[s.rows[u].runner])
  }

  ghost predicate TxInv(s: State, tx: Tx) {
    && tx.seen <= tx.known <= s.rows.Keys
    && (forall u :: u in tx.seen ==> s.rows[u].runner == tx.runner)
    && (forall u :: u in tx.known && LiveFor(s.rows, tx.runner, u) ==> u in tx.seen)
    && (Overlapped(s, tx) ==> tx.runner in s.latest && s.latest[tx.runner] !in tx.known)
  }

  ghost predicate Inv(s: State) {
    && LatestIsLive(s)
    && (forall tx :: tx in s.open ==> TxInv(s, s.open[tx]))
  }

  lemma LatestStep(s: State, step: Step)
    requires Inv(s) && Enabled(s, step)
    ensures LatestIsLive(Apply(s, step))
  {
    if step.Commit? {
      var after, tx := Apply(s, step), s.open[step.tx];
      forall u | u in after.rows
        ensures after.rows[u].runner in after.latest
        ensures LiveFor(after.rows, after.rows[u].runner, after.latest[after.rows[u].runner])
      {
        assert u != step.t ==> u in s.rows && after.rows[u].runner == s.rows[u].runner;
      }
    }
  }

  lemma TxStep(s: State, step: Step, id: nat)
    requires Inv(s) && Enabled(s, step) && id in Apply(s, step).open
    ensures TxInv(Apply(s, step), Apply(s, step).open[id])
  {
    var after := Apply(s, step);
    var tx := after.open[id];
    if step.Commit? {
      assert TxInv(s, tx);
      forall u | u in s.rows ensures u in after.rows && after.rows[u].runner == s.rows[u].runner {
      }
      assert Overlapped(after, tx) && !Overlapped(s, tx) ==> s.open[step.tx].runner == tx.runner;
    }
  }

  lemma {:induction false} InvAlways(steps: seq<Step>, n: nat)
    requires n <= |steps|
    ensures Inv(After(steps, n))
  {
    if n > 0 {
      InvAlways(steps, n - 1);
      var s, step := After(steps, n - 1), steps[n - 1];
      if Enabled(s, step) {
        LatestStep(s, step);
        forall id | id in Apply(s, step).open ensures TxInv(Apply(s, step), Apply(s, step).open[id]) {
          TxStep(s, step, id);
        }
      }
    }
  }

  /** Every runner that was ever issued a credential has exactly one that is live. */
  ghost predicate OneLiveEach(m: Table) {
    forall u :: u in m ==> exists t :: OnlyLive(m, m[u].runner, t)
  }

  lemma OthersKeepTheirs(m: Table, tx: Tx, t: Token, now: int, r: Runner)
    requires t !in m && tx.seen <= m.Keys && r != tx.runner
    requires forall u :: u in tx.seen ==> m[u].runner == tx.runner
    ensures forall u :: LiveFor(Committed(m, tx, t, now), r, u) <==> LiveFor(m, r, u)
  {
  }

  lemma CommitKeepsOneLive(s: State, id: nat, t: Token, now: int)
    requires Inv(s) && Enabled(s, Commit(id, t, now)) && OneLiveEach(s.rows) && !Overlapped(s, s.open[id])
    ensures OneLiveEach(Apply(s, Commit(id, t, now)).rows)
  {
    var tx, after := s.open[id], Committed(s.rows, s.open[id], t, now);
    assert TxInv(s, tx);
    forall u | u in after ensures exists v :: OnlyLive(after, after[u].runner, v) {
      if after[u].runner == tx.runner {
        assert OnlyLive(after, tx.runner, t);
      } else {
        OthersKeepTheirs(s.rows, tx, t, now, after[u].runner);
        var v :| OnlyLive(s.rows, s.rows[u].runner, v);
        assert OnlyLive(after, after[u].runner, v);
      }
    }
  }

  lemma OverlapLeavesTwo(s: State, id: nat, t: Token, now: int)
    requires Inv(s) && Enabled(s, Commit(id, t, now)) && Overlapped(s, s.open[id])
    ensures !OneLiveEach(Apply(s, Commit(id, t, now)).rows)
  {
    var tx, after := s.open[id], Committed(s.rows, s.open[id], t, now);
    assert TxInv(s, tx);
    var u :| u in s.rows && s.rows[u].runner == tx.runner && u !in tx.known;
    var other := s.latest[tx.runner];
    assert LiveFor(s.rows, tx.runner, other) && other != t;
    assert LiveFor(after, tx.runner, other) && LiveFor(after, tx.runner, t);
    assert t in after && after[t].runner == tx.runner;
    assert forall v :: OnlyLive(after, tx.runner, v) ==> v == t && v == other;
  }

  ghost predicate OneLiveAt(steps: seq<Step>, k: nat)
    requires k <= |steps|
  {
    OneLiveEach(After(steps, k).rows)
  }

  /** Step k commits a transaction that another of the same runner has overlapped. */
  predicate OverlapAt(steps: seq<Step>, k: nat)
    requires k < |steps|
  {
    var s := After(steps, k);
    steps[k].Commit? && Enabled(s, steps[k]) && Overlapped(s, s.open[steps[k].tx])
  }

  lemma OneLiveNext(steps: seq<Step>, k: nat)
    requires k < |steps| && OneLiveAt(steps, k)
    ensures OneLiveAt(steps, k + 1) <==> !OverlapAt(steps, k)
  {
    InvAlways(steps, k);
    var s, step := After(steps, k), steps[k];
    if step.Commit? && Enabled(s, step) {
      if Overlapped(s, s.open[step.tx]) {
        OverlapLeavesTwo(s, step.tx, step.t, step.now);
      } else {
        CommitKeepsOneLive(s, step.tx, step.t, step.now);
      }
    }
  }

  /**
   * Over every run there is never a moment with two live credentials for a
   * runner, or none, exactly if no transaction that issues one commits after
   * another of the same runner has since its UPDATE.
   */
  lemma {:induction false} OneLiveExactlyUnlessOverlapped(steps: seq<Step>, n: nat)
    requires n <= |steps|
    ensures (forall k :: 0 <= k <= n ==> OneLiveAt(steps, k)) <==> (forall k :: 0 <= k < n ==> !OverlapAt(steps, k))
  {
    if n == 0 {
      assert OneLiveAt(steps, 0);
    } else {
      OneLiveExactlyUnlessOverlapped(steps, n - 1);
      if OneLiveAt(steps, n - 1) {
        OneLiveNext(steps, n - 1);
      }
    }
  }
}
