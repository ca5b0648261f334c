/**
 * Token buckets that are forgotten when idle: internal/ratelimit/ratelimit.go.
 *
 * A bucket's tokens are held as credit, in nanoseconds: tokens * every. Every
 * quantity the code computes is then an integer, and only the rounding of its
 * floating point is lost.
 */
module RateLimit {
  import opened Durations

  datatype Limit = Limit(burst: int, every: int) {
    ghost predicate Positive() { burst >= 1 && every >= 1 }

    /** A full bucket. */
    function Full(): int { burst * every }
  }

  /** n requests a minute, in bursts of n; Go's division truncates, and n is positive by then. */
  function PerMinute(n: int): Limit {
    var m := if n <= 0 then 1 else n;
    Limit(m, MINUTE / m)
  }

  /** What New makes of a limit that is not positive. */
  function Normal(limit: Limit): (l: Limit)
    ensures l.Positive()
    ensures limit.burst > 0 && limit.every > 0 ==> l == limit
  {
    Limit(if limit.burst <= 0 then 1 else limit.burst, if limit.every <= 0 then SECOND else limit.every)
  }

  const IDLE_AFTER: int := 10 * MINUTE

  datatype Bucket = Bucket(credit: int, last: int) {
    /** Credit less the time it was brought up to: the only thing about a bucket that decides anything. */
    function Offset(): int { credit - last }
  }

  datatype Answer = Admitted | Refused(wait: int)

  /** A request, with the clock reading taken for it before the lock is. */
  datatype Call = Call(key: string, at: nat)

  function Min(a: int, b: int): int { if a < b then a else b }

  /** What a request at a given reading gets from a bucket, and what it leaves. */
  function Draw(l: Limit, b: Bucket, now: int): (Answer, Bucket) {
    var credit := Min(b.credit + (now - b.last), l.Full());
    if credit < l.every then (Refused(l.every - credit), Bucket(credit, now))
    else (Admitted, Bucket(credit - l.every, now))
  }

  type Buckets = map<string, Bucket>

  function Answered(l: Limit, m: Buckets, c: Call): Answer {
    if c.key in m then Draw(l, m[c.key], c.at).0 else Admitted
  }

  function Updated(l: Limit, m: Buckets, c: Call): Buckets {
    m[c.key := if c.key in m then Draw(l, m[c.key], c.at).1 else Bucket(l.Full() - l.every, c.at)]
  }

  /** The limiter as it is: the buckets it still has, and when idle ones were last cleared out. */
  datatype State = State(buckets: Buckets, swept: int)

  /** Go's zero time, before which nothing happens. */
  const NEW: State := State(map[], 0)

  function Sweep(s: State, now: int): State {
    if now - s.swept < IDLE_AFTER then s
    else State(map k | k in s.buckets && now - s.buckets[k].last <= IDLE_AFTER :: s.buckets[k], now)
  }

  // Whole runs: the state after the first n calls, and the answer to the next

  function Swept(l: Limit, calls: seq<Call>, n: nat): State
    requires n <= |calls|
  {
    if n == 0 then NEW
    else
      var s := Sweep(Swept(l, calls, n - 1), calls[n - 1].at);
      s.(buckets := Updated(l, s.buckets, calls[n - 1]))
  }

  function SweptAnswer(l: Limit, calls: seq<Call>, n: nat): Answer
    requires n < |calls|
  {
    Answered(l, Sweep(Swept(l, calls, n), calls[n].at).buckets, calls[n])
  }

  /** The reference: a limiter that never forgets a bucket. */
  function Unswept(l: Limit, calls: seq<Call>, n: nat): Buckets
    requires n <= |calls|
  {
    if n == 0 then map[] else Updated(l, Unswept(l, calls, n - 1), calls[n - 1])
  }

  function UnsweptAnswer(l: Limit, calls: seq<Call>, n: nat): Answer
    requires n < |calls|
  {
    Answered(l, Unswept(l, calls, n), calls[n])
  }

  /** The limiter with its buckets updated in place. */
  class Limiter {
    const limit: Limit
    var buckets: Buckets
    var swept: int

    ghost function Abstract(): State
      reads this
    {
      State(buckets, swept)
    }

    constructor (limit: Limit)
      ensures buckets == map[] && swept == 0
      ensures this.limit.burst == (if limit.burst > 0 then limit.burst else 1)
      ensures this.limit.every == (if limit.every > 0 then limit.every else 1_000_000_000)
    {
      this.limit := Normal(limit);
      buckets, swept := map[], 0;
    }

    method Allow(key: string, now: nat) returns (answer: Answer)
      modifies this
      ensures answer == Answered(limit, Sweep(old(Abstract()), now).buckets, Call(key, now))
      ensures var s := Sweep(old(Abstract()), now);
              Abstract() == s.(buckets := Updated(limit, s.buckets, Call(key, now)))
    {
      ForgetIdle(now);
      if key !in buckets {
        buckets := buckets[key := Bucket(limit.burst * limit.every - limit.every, now)];
        return Admitted;
      }
      var b := buckets[key];
      var elapsed := now - b.last;
      b := b.(last := now);
      b := b.(credit := b.credit + elapsed);
      if b.credit > limit.burst * limit.every {
        b := b.(credit := limit.burst * limit.every);
      }
      if b.credit < limit.every {
        buckets := buckets[key := b];
        return Refused(limit.every - b.credit);
      }
      b := b.(credit := b.credit - limit.every);
      buckets := buckets[key := b];
      return Admitted;
    }

    /** `sweep`: drops what has not been used lately, one key at a time. */
    method ForgetIdle(now: int)
      modifies this
      ensures Abstract() == Sweep(old(Abstract()), now)
      // At most once in ten minutes, and then exactly what has not been used for longer than that
      ensures now - old(swept) < 600_000_000_000 ==> buckets == old(buckets) && swept == old(swept)
      ensures now - old(swept) >= 600_000_000_000 ==>
                && swept == now
                && (forall k :: k in buckets <==> k in old(buckets) && now - old(buckets)[k].last <= 600_000_000_000)
                && (forall k :: k in buckets ==> buckets[k] == old(buckets)[k])
    {
      if now - swept < IDLE_AFTER {
        return;
      }
      swept := now;
      var keys := buckets.Keys;
      ghost var was := buckets;
      while keys != {}
        invariant keys <= was.Keys && swept == now
        invariant forall k :: k in buckets <==> k in was && (k in keys || now - was[k].last <= IDLE_AFTER)
        invariant forall k :: k in buckets ==> buckets[k] == was[k]
        decreases keys
      {
        var key :| key in keys;
        keys := keys - {key};
        if now - buckets[key].last > IDLE_AFTER {
          buckets := buckets - {key};
        }
      }
    }
  }
}
