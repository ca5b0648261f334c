/** Machine tokens in the control plane's database: internal/store/tokens.go. */
module Credentials {
  import opened Options
  import opened Durations

  type Runner = nat

  /** A secret. The table is keyed by it: hashing is taken to be injective. */
  type Token = nat

  datatype Row = Row(runner: Runner, revoked: bool, issuedAt: int)

  type Table = map<Token, Row>

  const DEFAULT_LIFETIME: int := 24 * HOUR

  predicate LiveFor(m: Table, r: Runner, t: Token) { t in m && m[t].runner == r && !m[t].revoked }

  /** The transaction that revokes what a runner has and inserts a new credential. */
  function Issue(m: Table, r: Runner, t: Token, now: int): Table {
    (map u | u in m :: if m[u].runner == r then m[u].(revoked := true) else m[u])[t := Row(r, false, now)]
  }

  function Authenticate(m: Table, t: Token): Option<Runner> {
    if t in m && !m[t].revoked then Some(m[t].runner) else None
  }

  /** The newest live credential of the runner has been in use for the whole lifetime. */
  ghost predicate DueForRotation(m: Table, r: Runner, maxAge: int, now: int) {
    exists t :: Newest(m, r, t) && now - m[t].issuedAt >= if maxAge <= 0 then DEFAULT_LIFETIME else maxAge
  }

  ghost predicate Newest(m: Table, r: Runner, t: Token) {
    LiveFor(m, r, t) && forall u :: LiveFor(m, r, u) ==> m[u].issuedAt <= m[t].issuedAt
  }

  /** Exactly this one credential of the runner is live. */
  ghost predicate OnlyLive(m: Table, r: Runner, t: Token) {
    forall u :: LiveFor(m, r, u) <==> u == t
  }

  /** Whatever was live before, after issuing exactly the new credential is, and nobody else's changed. */
  lemma IssueLeavesOneLive(m: Table, r: Runner, t: Token, now: int)
    requires t !in m
    ensures OnlyLive(Issue(m, r, t, now), r, t)
    ensures forall q, u :: q != r ==> (LiveFor(Issue(m, r, t, now), q, u) <==> LiveFor(m, q, u))
    ensures forall u :: u in m ==> u in Issue(m, r, t, now) && Issue(m, r, t, now)[u].runner == m[u].runner
    ensures Issue(m, r, t, now)[t].issuedAt == now
    ensures forall u :: u in m ==> Issue(m, r, t, now)[u].issuedAt == m[u].issuedAt
  {
    var after := Issue(m, r, t, now);
    assert after[t] == Row(r, false, now);
    forall u | u in m
      ensures u in after && after[u] == if m[u].runner == r then m[u].(revoked := true) else m[u]
    {
    }
  }

  /** A runner's one live credential is due exactly when it is as old as the lifetime, a day unless another is set. */
  lemma DueExactlyWhenOld(m: Table, r: Runner, t: Token, maxAge: int, now: int)
    requires OnlyLive(m, r, t)
    ensures t in m
    ensures DueForRotation(m, r, maxAge, now) <==> now - m[t].issuedAt >= if maxAge <= 0 then 24 * HOUR else maxAge
  {
    assert LiveFor(m, r, t);
    assert Newest(m, r, t);
  }

  class TokenStore {
    var rows: Table

    constructor ()
      ensures rows == map[]
    {
      rows := map[];
    }

    /** `secret` is what the random generator came up with, never seen before. */
    method IssueMachineToken(runner: Runner, secret: Token, now: int)
      requires secret !in rows
      modifies this
      ensures rows == Issue(old(rows), runner, secret, now) && OnlyLive(rows, runner, secret)
    {
      IssueLeavesOneLive(rows, runner, secret, now);
      rows := map u | u in rows :: if rows[u].runner == runner then rows[u].(revoked := true) else rows[u];
      rows := rows[secret := Row(runner, false, now)];
    }

    method AuthenticateMachine(token: Token) returns (runner: Option<Runner>)
      ensures runner == Authenticate(rows, token)
      ensures forall r: Runner :: runner == Some(r) <==> LiveFor(rows, r, token)
    {
      if token !in rows || rows[token].revoked {
        return None;
      }
      return Some(rows[token].runner);
    }

    /** Replaces the runner's credential when it is old enough, and says with what. */
    method RotateMachineTokenIfOld(runner: Runner, maxAge: int, secret: Token, now: int)
      returns (rotated: Option<Token>)
      requires secret !in rows
      modifies this
      ensures rotated == if old(DueForRotation(rows, runner, maxAge, now)) then Some(secret) else None
      ensures rows == if rotated.Some? then Issue(old(rows), runner, secret, now) else old(rows)
      ensures forall t :: old(OnlyLive(rows, runner, t)) ==>
                t in old(rows) &&
                (rotated.Some? <==> now - old(rows)[t].issuedAt >= if maxAge <= 0 then 24 * HOUR else maxAge)
    {
      var lifetime := if maxAge <= 0 then DEFAULT_LIFETIME else maxAge;
      forall t | OnlyLive(rows, runner, t)
        ensures t in rows && (DueForRotation(rows, runner, maxAge, now) <==>
                              now - rows[t].issuedAt >= if maxAge <= 0 then 24 * HOUR else maxAge)
      {
        DueExactlyWhenOld(rows, runner, t, maxAge, now);
      }
      var newest := NewestLive(runner);
      if newest.None? || now - rows[newest.value].issuedAt < lifetime {
        return None;
      }
      IssueMachineToken(runner, secret, now);
      return Some(secret);
    }

    /** The query behind the age check: live credentials, newest first, one row. */
    method NewestLive(runner: Runner) returns (newest: Option<Token>)
      ensures newest.None? ==> forall u :: !LiveFor(rows, runner, u)
      ensures newest.Some? ==> Newest(rows, runner, newest.value)
    {
      newest := None;
      var left := rows.Keys;
      while left != {}
        invariant left <= rows.Keys
        invariant newest.None? ==> forall u :: LiveFor(rows, runner, u) ==> u in left
        invariant newest.Some? ==> LiveFor(rows, runner, newest.value)
        invariant newest.Some? ==>
            forall u :: LiveFor(rows, runner, u) && u !in left ==> rows[u].issuedAt <= rows[newest.value].issuedAt
        decreases left
      {
        var t :| t in left;
        left := left - {t};
        if rows[t].runner == runner && !rows[t].revoked &&
          (newest.None? || rows[t].issuedAt > rows[newest.value].issuedAt)
        {
          newest := Some(t);
        }
      }
    }

    method RevokeMachineTokens(runner: Runner)
      modifies this
      ensures forall u :: !LiveFor(rows, runner, u)
      ensures forall q, u :: q != runner ==> (LiveFor(rows, q, u) <==> old(LiveFor(rows, q, u)))
      ensures rows.Keys == old(rows.Keys)
    {
      rows := map u | u in rows :: if rows[u].runner == runner then rows[u].(revoked := true) else rows[u];
    }
  }
}
