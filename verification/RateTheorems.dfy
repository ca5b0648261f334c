/** What the limiter promises over whole runs. */
module RateTheorems {
  import opened Durations
  import opened RateLimit

  /**
   * Readings are taken before the lock, so calls may be served slightly out of
   * order: none is more than d behind any call served before it.
   */
  ghost predicate Skewed(calls: seq<Call>, d: nat) {
    forall i, j :: 0 <= i < j < |calls| ==> calls[i].at - d <= calls[j].at
  }

  // Forgetting an idle bucket

  ghost predicate ForgettingIsInvisible(l: Limit, d: nat) {
    forall calls: seq<Call>, n: nat | Skewed(calls, d) && n < |calls| ::
      SweptAnswer(l, calls, n) == UnsweptAnswer(l, calls, n)
  }

  /** Some call already served, not much later than the bucket was last used, left it with credit to spare. */
  ghost predicate Anchored(calls: seq<Call>, n: nat, b: Bucket, d: nat)
    requires n <= |calls|
  {
    exists i :: 0 <= i < n && calls[i].at + b.Offset() >= 0 && calls[i].at - d <= b.last
  }

  ghost predicate AllAnchored(calls: seq<Call>, n: nat, m: Buckets, d: nat)
    requires n <= |calls|
  {
    forall k :: k in m ==> Anchored(calls, n, m[k], d)
  }

  lemma {:induction false} BucketsStayAnchored(l: Limit, calls: seq<Call>, n: nat, d: nat)
    requires l.Positive() && Skewed(calls, d) && n <= |calls|
    ensures AllAnchored(calls, n, Unswept(l, calls, n), d)
  {
    if n > 0 {
      BucketsStayAnchored(l, calls, n - 1, d);
      var before, c := Unswept(l, calls, n - 1), calls[n - 1];
      FullIsAtLeastOne(l);
      forall k | k in Unswept(l, calls, n) ensures Anchored(calls, n, Unswept(l, calls, n)[k], d) {
        if k in before {
          var i :| 0 <= i < n - 1 && calls[i].at + before[k].Offset() >= 0 && calls[i].at - d <= before[k].last;
          assert calls[i].at - d <= c.at;
        }
        assert k == c.key && Answered(l, before, c).Admitted? ==>
            calls[n - 1].at + Unswept(l, calls, n)[k].Offset() >= 0;
      }
    }
  }

  lemma FullIsAtLeastOne(l: Limit)
    requires l.Positive()
    ensures l.Full() >= l.every
  {
    assert (l.burst - 1) * l.every >= 0;
  }

  /** From now on every call would find the bucket full. */
  ghost predicate Rested(l: Limit, calls: seq<Call>, n: nat, b: Bucket) {
    forall j :: n <= j < |calls| ==> calls[j].at + b.Offset() >= l.Full()
  }

  /** What is still held agrees with the reference, and what was dropped is full there. */
  ghost predicate Agree(l: Limit, calls: seq<Call>, n: nat, s: Buckets, m: Buckets) {
    && (forall k :: k in s ==> k in m && s[k] == m[k])
    && (forall k :: k in m && k !in s ==> Rested(l, calls, n, m[k]))
  }

  lemma SweepKeepsAgreement(l: Limit, calls: seq<Call>, n: nat, d: nat, s: State)
    requires l.Positive() && Skewed(calls, d) && n < |calls|
    requires l.Full() + 2 * d <= IDLE_AFTER + 1
    requires Agree(l, calls, n, s.buckets, Unswept(l, calls, n))
    ensures Agree(l, calls, n, Sweep(s, calls[n].at).buckets, Unswept(l, calls, n))
  {
    var after, m := Sweep(s, calls[n].at).buckets, Unswept(l, calls, n);
    BucketsStayAnchored(l, calls, n, d);
    forall k | k in m && k !in after ensures Rested(l, calls, n, m[k]) {
      if k in s.buckets {
        var b := m[k];
        assert Anchored(calls, n, b, d);
        assert calls[n].at - b.last > IDLE_AFTER;
        forall j | n <= j < |calls| ensures calls[j].at + b.Offset() >= l.Full() {
          assert calls[j].at >= calls[n].at - d;
        }
      }
    }
  }

  lemma CallKeepsAgreement(l: Limit, calls: seq<Call>, n: nat, s: Buckets, m: Buckets)
    requires l.Positive() && n < |calls| && Agree(l, calls, n, s, m)
    ensures Answered(l, s, calls[n]) == Answered(l, m, calls[n])
    ensures Agree(l, calls, n + 1, Updated(l, s, calls[n]), Updated(l, m, calls[n]))
  {
    var key := calls[n].key;
    FullIsAtLeastOne(l);
    if key in m && key !in s {
      assert Rested(l, calls, n, m[key]);
      assert calls[n].at + m[key].Offset() >= l.Full();
    }
    assert Updated(l, s, calls[n])[key] == Updated(l, m, calls[n])[key];
    forall k | k in Updated(l, m, calls[n]) && k !in Updated(l, s, calls[n])
      ensures Rested(l, calls, n + 1, Updated(l, m, calls[n])[k])
    {
      assert Rested(l, calls, n, m[k]);
    }
  }

  lemma StepAgrees(l: Limit, calls: seq<Call>, n: nat, d: nat)
    requires l.Positive() && Skewed(calls, d) && n < |calls|
    requires l.Full() + 2 * d <= IDLE_AFTER + 1
    requires Agree(l, calls, n, Swept(l, calls, n).buckets, Unswept(l, calls, n))
    ensures SweptAnswer(l, calls, n) == UnsweptAnswer(l, calls, n)
    ensures Agree(l, calls, n + 1, Swept(l, calls, n + 1).buckets, Unswept(l, calls, n + 1))
  {
    var s := Swept(l, calls, n);
    SweepKeepsAgreement(l, calls, n, d, s);
    CallKeepsAgreement(l, calls, n, Sweep(s, calls[n].at).buckets, Unswept(l, calls, n));
  }

  lemma {:induction false} SweptAgrees(l: Limit, calls: seq<Call>, n: nat, d: nat)
    requires l.Positive() && Skewed(calls, d) && n <= |calls|
    requires l.Full() + 2 * d <= IDLE_AFTER + 1
    ensures Agree(l, calls, n, Swept(l, calls, n).buckets, Unswept(l, calls, n))
  {
    if n > 0 {
      SweptAgrees(l, calls, n - 1, d);
      StepAgrees(l, calls, n - 1, d);
    }
  }

  lemma ForgettingInvisible(l: Limit, calls: seq<Call>, n: nat, d: nat)
    requires l.Positive() && Skewed(calls, d) && n < |calls|
    requires l.Full() + 2 * d <= IDLE_AFTER + 1
    ensures SweptAnswer(l, calls, n) == UnsweptAnswer(l, calls, n)
  {
    SweptAgrees(l, calls, n, d);
    StepAgrees(l, calls, n, d);
  }

  /** k tokens of credit, summed rather than multiplied to keep the reasoning below linear. */
  function Tokens(l: Limit, k: nat): int {
    if k == 0 then 0 else Tokens(l, k - 1) + l.every
  }

  lemma {:induction false} TokensIsProduct(l: Limit, k: nat)
    ensures Tokens(l, k) == k * l.every
  {
    if k > 0 { TokensIsProduct(l, k - 1); }
  }

  lemma {:induction false} TokensMonotone(l: Limit, k: nat, m: nat)
    requires l.Positive() && k <= m
    ensures 0 <= Tokens(l, k) <= Tokens(l, m)
    ensures k < m ==> Tokens(l, k) + l.every <= Tokens(l, m)
    decreases m
  {
    if k < m { TokensMonotone(l, k, m - 1); } else if k > 0 { TokensMonotone(l, k - 1, k - 1); }
  }

  lemma TokensFit(l: Limit, k: nat)
    requires l.Positive() && k <= l.burst
    ensures 0 <= Tokens(l, k) <= l.Full()
    ensures k < l.burst ==> Tokens(l, k) + l.every <= l.Full()
    ensures k == l.burst ==> Tokens(l, k) == l.Full()
  {
    TokensMonotone(l, k, l.burst);
    TokensIsProduct(l, l.burst);
  }

  // A run that tells a forgetful limiter from the reference

  const T: int := 2 * IDLE_AFTER

  /**
   * Drain a bucket at T, touch it once more with a reading e earlier, let another
   * key's call sweep it away, and then ask for a whole burst, with reading r.
   */
  function Probe(l: Limit, e: nat, r: nat, i: nat): Call
    requires e < IDLE_AFTER
  {
    if i == 0 then Call("other", T - e)
    else if i <= l.burst then Call("key", T)
    else if i == l.burst + 1 then Call("key", T - e)
    else if i == l.burst + 2 then Call("other", T - e + IDLE_AFTER + 1)
    else Call("key", r)
  }

  function Probes(l: Limit, e: nat, r: nat): (calls: seq<Call>)
    requires l.Positive() && e < IDLE_AFTER
    ensures |calls| == 2 * l.burst + 3
    ensures forall i :: 0 <= i < |calls| ==> calls[i] == Probe(l, e, r, i)
  {
    seq(2 * l.burst + 3, (i: nat) requires e < IDLE_AFTER => Probe(l, e, r, i))
  }

  lemma ProbesSkewed(l: Limit, e: nat, r: nat, d: nat)
    requires l.Positive() && e < IDLE_AFTER && e <= d && r >= T - e + IDLE_AFTER + 1 - d
    ensures Skewed(Probes(l, e, r), d)
  {
  }

  lemma ProbeOpens(l: Limit, e: nat, r: nat)
    requires l.Positive() && e < IDLE_AFTER
    ensures var m := map["other" := Bucket(l.Full() - l.every, T - e)];
            Unswept(l, Probes(l, e, r), 1) == m && Swept(l, Probes(l, e, r), 1) == State(m, T - e)
  {
    var calls := Probes(l, e, r);
    assert calls[0] == Probe(l, e, r, 0);
    TokensFit(l, l.burst);
    assert Swept(l, calls, 0) == NEW && Unswept(l, calls, 0) == map[];
    assert Sweep(NEW, T - e) == State(map[], T - e);
  }

  lemma {:induction false} ProbeDrains(l: Limit, e: nat, r: nat, i: nat)
    requires l.Positive() && e < IDLE_AFTER && 1 <= i <= l.burst
    ensures var calls := Probes(l, e, r);
            var m := map["other" := Bucket(l.Full() - l.every, T - e), "key" := Bucket(Tokens(l, l.burst - i), T)];
            Unswept(l, calls, i + 1) == m && Swept(l, calls, i + 1) == State(m, T - e)
  {
    var calls := Probes(l, e, r);
    assert calls[i] == Probe(l, e, r, i);
    TokensFit(l, l.burst - i);
    if i == 1 {
      TokensFit(l, l.burst);
      ProbeOpens(l, e, r);
    } else {
      ProbeDrains(l, e, r, i - 1);
      var left := Tokens(l, l.burst - i);
      assert Draw(l, Bucket(left + l.every, T), T) == (Admitted, Bucket(left, T));
    }
  }

  /** The sweep drops the drained bucket; the reference still has it, with nothing in it. */
  lemma ProbeForgets(l: Limit, e: nat, r: nat)
    requires l.Positive() && e < IDLE_AFTER
    ensures var calls, n := Probes(l, e, r), l.burst + 3;
            && "key" !in Swept(l, calls, n).buckets && Swept(l, calls, n).swept == T - e + IDLE_AFTER + 1
            && "key" in Unswept(l, calls, n) && Unswept(l, calls, n)["key"].Offset() == -T
  {
    var calls, b := Probes(l, e, r), l.burst;
    assert calls[b + 1] == Probe(l, e, r, b + 1) && calls[b + 2] == Probe(l, e, r, b + 2);
    ProbeDrains(l, e, r, b);
    FullIsAtLeastOne(l);
    assert Draw(l, Bucket(0, T), T - e).1 == Bucket(0 - e, T - e);
    var s := Swept(l, calls, b + 2);
    assert s.swept == T - e && s.buckets["key"] == Bucket(0 - e, T - e);
    assert Unswept(l, calls, b + 2)["key"] == Bucket(0 - e, T - e);
  }

  /** The swept limiter admits the whole burst. */
  lemma {:induction false} ProbeAdmitted(l: Limit, e: nat, r: nat, j: nat)
    requires l.Positive() && e < IDLE_AFTER && j < l.burst && r - (T - e + IDLE_AFTER + 1) < IDLE_AFTER
    ensures SweptAnswer(l, Probes(l, e, r), l.burst + 3 + j).Admitted?
    ensures var s := Swept(l, Probes(l, e, r), l.burst + 4 + j);
            && s.swept == T - e + IDLE_AFTER + 1
            && "key" in s.buckets && s.buckets["key"] == Bucket(Tokens(l, l.burst - 1 - j), r)
  {
    var calls, n := Probes(l, e, r), l.burst + 3 + j;
    assert calls[n] == Probe(l, e, r, n);
    TokensFit(l, l.burst - 1 - j);
    TokensFit(l, l.burst);
    if j == 0 {
      ProbeForgets(l, e, r);
    } else {
      ProbeAdmitted(l, e, r, j - 1);
      var left := Tokens(l, l.burst - 1 - j);
      assert Draw(l, Bucket(left + l.every, r), r) == (Admitted, Bucket(left, r));
    }
    assert Sweep(Swept(l, calls, n), calls[n].at) == Swept(l, calls, n);
  }

  /** As far behind as the skew lets it be. */
  function Behind(e: nat): nat
    requires e < IDLE_AFTER
  {
    T - 2 * e + IDLE_AFTER + 1
  }

  /** The reference cannot: it runs dry somewhere in the burst. */
  lemma {:induction false} ProbeDiffers(l: Limit, e: nat, j: nat) returns (n: nat)
    requires l.Positive() && e < IDLE_AFTER && j <= l.burst
    requires l.Full() + 2 * e > IDLE_AFTER + 1
    requires j > 0 ==> Tokens(l, j) <= IDLE_AFTER + 1 - 2 * e
    requires "key" in Unswept(l, Probes(l, e, Behind(e)), l.burst + 3 + j)
    requires Unswept(l, Probes(l, e, Behind(e)), l.burst + 3 + j)["key"].Offset() == -T - Tokens(l, j)
    ensures var calls := Probes(l, e, Behind(e));
            n < |calls| && SweptAnswer(l, calls, n) != UnsweptAnswer(l, calls, n)
    decreases l.burst - j
  {
    var calls := Probes(l, e, Behind(e));
    n := l.burst + 3 + j;
    TokensFit(l, j);
    assert j < l.burst;
    assert calls[n] == Probe(l, e, Behind(e), n);
    ProbeAdmitted(l, e, Behind(e), j);
    if IDLE_AFTER + 1 - 2 * e - Tokens(l, j) >= l.every {
      n := ProbeDiffers(l, e, j + 1);
    }
  }

  /**
   * Forgetting idle buckets shows in no answer, on any run whose readings are at
   * most d out of order, exactly when a bucket refills within the time it takes
   * to be forgotten, less twice the skew.
   */
  lemma ForgettingIsInvisibleExactlyWhen(l: Limit, d: nat)
    requires l.Positive()
    ensures ForgettingIsInvisible(l, d) <==> l.Full() + 2 * d <= IDLE_AFTER + 1
  {
    if l.Full() + 2 * d <= IDLE_AFTER + 1 {
      forall calls: seq<Call>, n: nat | Skewed(calls, d) && n < |calls|
        ensures SweptAnswer(l, calls, n) == UnsweptAnswer(l, calls, n)
      {
        ForgettingInvisible(l, calls, n, d);
      }
    } else {
      var e := Min(d, IDLE_AFTER - 1);
      FullIsAtLeastOne(l);
      ProbesSkewed(l, e, Behind(e), d);
      ProbeForgets(l, e, Behind(e));
      var n := ProbeDiffers(l, e, 0);
      assert !ForgettingIsInvisible(l, d);
    }
  }

  /** The limits the server builds forget invisibly, up to sixty thousand million requests a minute. */
  lemma PerMinuteForgetsInvisibly(n: int)
    ensures ForgettingIsInvisible(Normal(PerMinute(n)), 0) <==> n <= MINUTE
    ensures n <= MINUTE ==> Normal(PerMinute(n)).Full() <= MINUTE
  {
    var l, m := Normal(PerMinute(n)), if n <= 0 then 1 else n;
    if n <= MINUTE {
      assert MINUTE / m >= 1 && m * (MINUTE / m) <= MINUTE by { DivideBack(MINUTE, m); }
    } else {
      assert MINUTE / m == 0 by { DivideBack(MINUTE, m); }
      assert l.Full() == n * SECOND;
    }
    ForgettingIsInvisibleExactlyWhen(l, 0);
  }

  /** n at once, and as many more in a minute as whole intervals of the refill allow: n, to within rounding. */
  lemma PerMinuteIsThatMany(n: int)
    requires n > 0
    ensures var l := PerMinute(n); l.burst == n && l.burst * l.every <= 60_000_000_000 < l.burst * (l.every + 1)
  {
    DivideBack(MINUTE, n);
    assert n * (MINUTE / n + 1) == n * (MINUTE / n) + n;
  }

  lemma DivideBack(a: nat, m: nat)
    requires m > 0
    ensures m * (a / m) <= a < m * (a / m) + m
    ensures a / m >= 1 <==> m <= a
  {
    var q := a / m;
    assert a == m * q + a % m;
    if q >= 1 { assert m * q >= m; }
    if q == 0 { assert m * q == 0; }
  }
}
