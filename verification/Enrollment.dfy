/**
 * Enrollment tokens: RedeemEnrollmentToken in internal/store/tokens.go, Usable in
 * internal/store/models.go and the register handler in internal/server/agent.go.
 */
module Enrollment {
  import opened Options

  type Name = string

  const PREFIX: string := "rnr_enroll_"

  /** A secret the server issues begins with the prefix. */
  predicate Prefixed(secret: string) { PREFIX <= secret }

  datatype Token = Token(maxUses: Option<int>, uses: nat, expiresAt: Option<int>, revokedAt: Option<int>) {
    /** The read side's view of whether the token may still enroll a machine. */
    predicate Usable(now: int) {
      if revokedAt.Some? then false
      else if expiresAt.Some? && now >= expiresAt.value then false
      else if maxUses.Some? && uses >= maxUses.value then false
      else true
    }

    /** Neither revoked nor expired: only its uses can stop it. */
    predicate Current(now: int) { revokedAt.None? && (expiresAt.None? || now < expiresAt.value) }

    /** As many machines as it was made for; a limit below one admits none. */
    function Most(): (n: nat)
      requires maxUses.Some?
    {
      if maxUses.value < 0 then 0 else maxUses.value
    }
  }

  type Table = map<string, Token>

  datatype Refusal = Invalid | Exhausted

  /** How far one accepted registration got. */
  datatype Stage = Redeemed | Registered | Issued

  datatype Request = Request(secret: string, name: Name, stage: Stage, abandoned: bool)

  /** The token table, the database clock, and every registration that redeemed a token. */
  datatype State = State(table: Table, now: int, requests: seq<Request>)

  datatype Step =
    | Create(secret: string, maxUses: Option<int>, expiresAt: Option<int>)
    | Revoke(secret: string)
    | Redeem(secret: string, name: Name)
    | Proceed(request: nat)
    | Abandon(request: nat)
    | Tick(now: int)

  predicate Enabled(s: State, step: Step) {
    match step
    case Create(secret, _, _) => secret !in s.table && Prefixed(secret)
    case Revoke(_) => true
    case Redeem(_, _) => true
    case Proceed(i) => i < |s.requests| && !s.requests[i].abandoned && !s.requests[i].stage.Issued?
    case Abandon(i) => i < |s.requests|
    case Tick(now) => s.now <= now
  }

  /** The one UPDATE statement: its WHERE clause and its SET together. */
  function Spent(m: Table, secret: string, now: int): Option<Table> {
    if && secret in m
       && m[secret].revokedAt == None
       && (m[secret].expiresAt == None || m[secret].expiresAt.value > now)
       && (m[secret].maxUses == None || m[secret].uses < m[secret].maxUses.value)
    then Some(m[secret := m[secret].(uses := m[secret].uses + 1)])
    else None
  }

  function RevokedIn(m: Table, secret: string, now: int): Table {
    if secret in m && m[secret].revokedAt == None then m[secret := m[secret].(revokedAt := Some(now))] else m
  }

  function Apply(s: State, step: Step): State
    requires Enabled(s, step)
  {
    match step
    case Create(secret, maxUses, expiresAt) =>
      s.(table := s.table[secret := Token(maxUses, 0, expiresAt, None)])
    case Revoke(secret) => s.(table := RevokedIn(s.table, secret, s.now))
    case Redeem(secret, name) =>
      var spent := Spent(s.table, secret, s.now);
      if Prefixed(secret) && spent.Some?
      then s.(table := spent.value, requests := s.requests + [Request(secret, name, Redeemed, false)])
      else s
    case Proceed(i) =>
      var request := s.requests[i];
      s.(requests := s.requests[i := request.(stage := if request.stage.Redeemed? then Registered else Issued)])
    case Abandon(i) => s.(requests := s.requests[i := s.requests[i].(abandoned := true)])
    case Tick(now) => s.(now := now)
  }

  /** The state after the first n steps; a step that is not possible does nothing. */
  function After(steps: seq<Step>, n: nat): State
    requires n <= |steps|
  {
    if n == 0 then State(map[], 0, [])
    else
      var before := After(steps, n - 1);
      if Enabled(before, steps[n - 1]) then Apply(before, steps[n - 1]) else before
  }

  /** Successful redemptions of a secret among the first n. */
  function Redemptions(requests: seq<Request>, secret: string, n: nat): nat
    requires n <= |requests|
  {
    if n == 0 then 0 else Redemptions(requests, secret, n - 1) + if requests[n - 1].secret == secret then 1 else 0
  }

  /** The machines the first n registrations put in the fleet through a secret. */
  function Machines(requests: seq<Request>, secret: string, n: nat): set<Name>
    requires n <= |requests|
  {
    if n == 0 then {}
    else if requests[n - 1].secret == secret && !requests[n - 1].stage.Redeemed?
    then Machines(requests, secret, n - 1) + {requests[n - 1].name}
    else Machines(requests, secret, n - 1)
  }

  lemma {:induction false} MachinesWithinRedemptions(requests: seq<Request>, secret: string, n: nat)
    requires n <= |requests|
    ensures |Machines(requests, secret, n)| <= Redemptions(requests, secret, n)
  {
    if n > 0 { MachinesWithinRedemptions(requests, secret, n - 1); }
  }

  lemma {:induction false} SameSecrets(a: seq<Request>, b: seq<Request>, secret: string, n: nat)
    requires n <= |a| && n <= |b| && forall i :: 0 <= i < n ==> a[i].secret == b[i].secret
    ensures Redemptions(a, secret, n) == Redemptions(b, secret, n)
  {
    if n > 0 { SameSecrets(a, b, secret, n - 1); }
  }

  /** What the state says about one secret. */
  predicate Accounted(s: State, secret: string) {
    var redemptions := Redemptions(s.requests, secret, |s.requests|);
    if secret in s.table then
      && s.table[secret].uses == redemptions
      && (s.table[secret].maxUses.Some? ==> redemptions <= s.table[secret].Most())
    else redemptions == 0
  }

  lemma AccountedStep(s: State, step: Step, secret: string)
    requires Accounted(s, secret) && Enabled(s, step)
    ensures Accounted(Apply(s, step), secret)
  {
    SameSecrets(s.requests, Apply(s, step).requests, secret, |s.requests|);
  }

  lemma {:induction false} AccountedAlways(steps: seq<Step>, secret: string, n: nat)
    requires n <= |steps|
    ensures Accounted(After(steps, n), secret)
  {
    if n > 0 {
      AccountedAlways(steps, secret, n - 1);
      var before := After(steps, n - 1);
      if Enabled(before, steps[n - 1]) { AccountedStep(before, steps[n - 1], secret); }
    }
  }

  /**
   * Whatever the interleaving of handlers: a token's uses are its successful
   * redemptions, never more than it was made for, and it puts no more machines
   * in the fleet than that.
   */
  lemma UsesAreRedemptionsWithinTheLimit(steps: seq<Step>, secret: string, n: nat)
    requires n <= |steps| && secret in After(steps, n).table
    ensures var s := After(steps, n);
            var token := s.table[secret];
            && token.uses == Redemptions(s.requests, secret, |s.requests|)
            && (token.maxUses.Some? ==> token.uses <= token.Most())
            && |Machines(s.requests, secret, |s.requests|)| <= token.uses
  {
    AccountedAlways(steps, secret, n);
    var s := After(steps, n);
    MachinesWithinRedemptions(s.requests, secret, |s.requests|);
  }

  /** Every machine in the fleet came in on a token that exists. */
  lemma NoMachineWithoutAToken(steps: seq<Step>, secret: string, n: nat)
    requires n <= |steps| && secret !in After(steps, n).table
    ensures Machines(After(steps, n).requests, secret, |After(steps, n).requests|) == {}
  {
    AccountedAlways(steps, secret, n);
    var s := After(steps, n);
    MachinesWithinRedemptions(s.requests, secret, |s.requests|);
  }

  /** A redeem step takes effect exactly when the read side calls the token usable. */
  lemma RedeemsExactlyWhenUsable(s: State, secret: string, name: Name)
    requires forall k :: k in s.table ==> Prefixed(k)
    ensures Apply(s, Redeem(secret, name)) != s <==> secret in s.table && s.table[secret].Usable(s.now)
    ensures secret in s.table && s.table[secret].Usable(s.now) ==>
              Apply(s, Redeem(secret, name)).table ==
              s.table[secret := s.table[secret].(uses := s.table[secret].uses + 1)]
  {
    assert |Apply(s, Redeem(secret, name)).requests| == |s.requests| || secret in s.table;
  }

  /** What may still change about a token from one state to a later one. */
  predicate Aged(s: State, t: State, secret: string) {
    && s.now <= t.now
    && (secret in s.table ==>
          && secret in t.table
          && t.table[secret].maxUses == s.table[secret].maxUses
          && t.table[secret].expiresAt == s.table[secret].expiresAt
          && t.table[secret].uses >= s.table[secret].uses
          && (s.table[secret].revokedAt.Some? ==> t.table[secret].revokedAt == s.table[secret].revokedAt))
  }

  lemma {:induction false} AgedAlways(steps: seq<Step>, secret: string, m: nat, n: nat)
    requires m <= n <= |steps|
    ensures Aged(After(steps, m), After(steps, n), secret)
    decreases n
  {
    if m < n { AgedAlways(steps, secret, m, n - 1); }
  }

  /** A token that can once not be used can never be used again. */
  lemma UnusableForGood(steps: seq<Step>, secret: string, m: nat, n: nat)
    requires m <= n <= |steps| && secret in After(steps, m).table
    requires !After(steps, m).table[secret].Usable(After(steps, m).now)
    ensures secret in After(steps, n).table
    ensures !After(steps, n).table[secret].Usable(After(steps, n).now)
  {
    AgedAlways(steps, secret, m, n);
  }

  /** Over every run: once a token is expired, revoked or used up it enrolls nobody more. */
  lemma {:induction false} NobodyEnrollsOnceItIsOver(steps: seq<Step>, secret: string, m: nat, n: nat)
    requires m <= n <= |steps| && secret in After(steps, m).table
    requires var t, now := After(steps, m).table[secret], After(steps, m).now;
             || t.revokedAt.Some?
             || (t.expiresAt.Some? && now >= t.expiresAt.value)
             || (t.maxUses.Some? && t.uses >= t.maxUses.value)
    ensures Redemptions(After(steps, n).requests, secret, |After(steps, n).requests|) ==
            Redemptions(After(steps, m).requests, secret, |After(steps, m).requests|)
    ensures secret in After(steps, n).table && After(steps, n).table[secret].uses == After(steps, m).table[secret].uses
    decreases n
  {
    if m < n {
      NobodyEnrollsOnceItIsOver(steps, secret, m, n - 1);
      AgedAlways(steps, secret, m, n - 1);
      AccountedAlways(steps, secret, n - 1);
      AccountedAlways(steps, secret, n);
    }
  }

  /** Attempts to redeem a secret among steps m..n. */
  function Attempts(steps: seq<Step>, secret: string, m: nat, n: nat): nat
    requires m <= n <= |steps|
    decreases n
  {
    if m == n then 0
    else Attempts(steps, secret, m, n - 1) + if steps[n - 1].Redeem? && steps[n - 1].secret == secret then 1 else 0
  }

  lemma {:induction false} TokensArePrefixed(steps: seq<Step>, n: nat)
    requires n <= |steps|
    ensures forall k :: k in After(steps, n).table ==> Prefixed(k)
  {
    if n > 0 { TokensArePrefixed(steps, n - 1); }
  }

  /**
   * While a token is neither revoked nor expired it admits exactly as many as
   * try, up to its limit: no use is lost to a race and none is refused early.
   */
  lemma {:induction false} EveryUseIsHonoured(steps: seq<Step>, secret: string, m: nat, n: nat)
    requires m < n <= |steps| && Enabled(After(steps, m), steps[m])
    requires steps[m].Create? && steps[m].secret == secret && secret in After(steps, n).table
    requires After(steps, n).table[secret].Current(After(steps, n).now)
    ensures var token := After(steps, n).table[secret];
            var attempts := Attempts(steps, secret, m + 1, n);
            token.uses == if token.maxUses.Some? then Least(attempts, token.Most()) else attempts
    decreases n
  {
    if n > m + 1 {
      AgedAlways(steps, secret, m + 1, n - 1);
      AgedAlways(steps, secret, n - 1, n);
      EveryUseIsHonoured(steps, secret, m, n - 1);
      TokensArePrefixed(steps, n - 1);
    }
  }

  datatype Answer = Enrolled | BadRequest | Unauthorized | Forbidden | ServerError

  /** The store behind the register handler. */
  class EnrollmentStore {
    var tokens: Table
    var runners: set<Name>

    constructor ()
      ensures tokens == map[] && runners == {}
    {
      tokens, runners := map[], {};
    }

    /** Counts one use, or says why not: nothing at all about a token that does not exist. */
    method RedeemEnrollmentToken(secret: string, now: int) returns (refused: Option<Refusal>)
      requires forall k :: k in tokens ==> Prefixed(k)
      modifies this`tokens
      ensures refused == None <==> secret in old(tokens) && old(tokens)[secret].Usable(now)
      ensures refused == None <==>
                && secret in old(tokens) && old(tokens)[secret].revokedAt == None
                && (old(tokens)[secret].expiresAt.Some? ==> now < old(tokens)[secret].expiresAt.value)
                && (old(tokens)[secret].maxUses.Some? ==> old(tokens)[secret].uses < old(tokens)[secret].maxUses.value)
      ensures refused == Some(Exhausted) <==> secret in old(tokens) && !old(tokens)[secret].Usable(now)
      ensures tokens == if refused == None
                        then old(tokens)[secret := old(tokens)[secret].(uses := old(tokens)[secret].uses + 1)]
                        else old(tokens)
    {
      if !Prefixed(secret) {
        return Some(Invalid);
      }
      match Spent(tokens, secret, now)
      case Some(table) =>
        tokens := table;
        return None;
      case None =>
        return if secret in tokens then Some(Exhausted) else Some(Invalid);
    }

    /** Says whether there was anything left to revoke. */
    method RevokeEnrollmentToken(secret: string, now: int) returns (found: bool)
      modifies this`tokens
      ensures found <==> secret in old(tokens) && old(tokens)[secret].revokedAt.None?
      ensures secret in tokens ==> !tokens[secret].Usable(now)
      ensures tokens.Keys == old(tokens).Keys && forall k :: k in tokens && k != secret ==> tokens[k] == old(tokens)[k]
    {
      found := secret in tokens && tokens[secret].revokedAt == None;
      tokens := RevokedIn(tokens, secret, now);
    }

    /**
     * Checks the request, redeems, registers, issues. A bad request costs the
     * token nothing; a failure after redeeming costs a use all the same.
     */
    method Register(secret: string, name: Name, valid: bool, now: int, upsertFails: bool, issueFails: bool)
      returns (answer: Answer)
      requires forall k :: k in tokens ==> Prefixed(k)
      modifies this
      ensures var usable := secret in old(tokens) && old(tokens)[secret].Usable(now);
              && (answer == BadRequest <==> secret != "" && (!valid || name == ""))
              && (answer == Unauthorized <==> secret == "" || (valid && name != "" && secret !in old(tokens)))
              && (answer == Forbidden <==>
                    secret != "" && valid && name != "" && secret in old(tokens) && !old(tokens)[secret].Usable(now))
              && (answer.Enrolled? ==> usable && name in runners)
              && (tokens != old(tokens) <==> secret != "" && valid && name != "" && usable)
              && (tokens != old(tokens) ==>
                    && tokens == old(tokens)[secret := old(tokens)[secret].(uses := old(tokens)[secret].uses + 1)]
                    && (answer.Enrolled? <==> !upsertFails && !issueFails))
              && runners == if tokens != old(tokens) && !upsertFails then old(runners) + {name} else old(runners)
    {
      if secret == "" {
        return Unauthorized;
      }
      if name == "" || !valid {
        return BadRequest;
      }
      var refused := RedeemEnrollmentToken(secret, now);
      if refused.Some? {
        return if refused.value.Invalid? then Unauthorized else Forbidden;
      }
      assert tokens[secret].uses != old(tokens)[secret].uses;
      if upsertFails {
        return ServerError;
      }
      runners := runners + {name};
      return if issueFails then ServerError else Enrolled;
    }
  }
}
