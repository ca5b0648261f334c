/** How much the limiter lets through, and what a refusal means. */
module RateBounds {
  import opened RateLimit
  import opened RateTheorems

  /** The premise under which the limiter and the reference are the same. */
  ghost predicate Faithful(l: Limit, calls: seq<Call>, d: nat) {
    l.Positive() && Skewed(calls, d) && l.Full() + 2 * d <= IDLE_AFTER + 1
  }

  predicate Counts(c: Call, key: string, s: int, t: int) { c.key == key && s <= c.at <= t }

  /** Requests of a key admitted among the first n calls, with readings from s to t. */
  function Admissions(l: Limit, calls: seq<Call>, n: nat, key: string, s: int, t: int): nat
    requires n <= |calls|
  {
    if n == 0 then 0
    else
      Admissions(l, calls, n - 1, key, s, t) +
      if Counts(calls[n - 1], key, s, t) && SweptAnswer(l, calls, n - 1).Admitted? then 1 else 0
  }

  /** The same, as the reference decides. */
  function ReferenceAdmissions(l: Limit, calls: seq<Call>, n: nat, key: string, s: int, t: int): nat
    requires n <= |calls|
  {
    if n == 0 then 0
    else
      ReferenceAdmissions(l, calls, n - 1, key, s, t) +
      if Counts(calls[n - 1], key, s, t) && UnsweptAnswer(l, calls, n - 1).Admitted? then 1 else 0
  }

  /**
   * The reference spends what it admits out of one bucketful and the time from s
   * to t; it takes no assumption about the order of the readings.
   */
  lemma {:induction false} CreditPaysForAdmissions(l: Limit, calls: seq<Call>, n: nat, key: string, s: int, t: int)
    requires l.Positive() && n <= |calls| && s <= t
    ensures var a := ReferenceAdmissions(l, calls, n, key, s, t);
            && Tokens(l, a) <= l.Full() + (t - s)
            && (a > 0 ==> key in Unswept(l, calls, n) &&
                          Unswept(l, calls, n)[key].Offset() + s + Tokens(l, a) <= l.Full())
  {
    FullIsAtLeastOne(l);
    if n > 0 {
      CreditPaysForAdmissions(l, calls, n - 1, key, s, t);
    }
  }

  lemma {:induction false} AdmissionsAgree(l: Limit, calls: seq<Call>, n: nat, key: string, s: int, t: int, d: nat)
    requires Faithful(l, calls, d) && n <= |calls|
    ensures Admissions(l, calls, n, key, s, t) == ReferenceAdmissions(l, calls, n, key, s, t)
  {
    if n > 0 {
      AdmissionsAgree(l, calls, n - 1, key, s, t, d);
      ForgettingInvisible(l, calls, n - 1, d);
    }
  }

  lemma QuotientBound(x: int, e: int, b: int, y: int)
    requires e > 0 && x * e <= b * e + y
    ensures x <= b + y / e
  {
    var q := y / e;
    assert y == q * e + y % e;
    var over := x - b - q - 1;
    assert over < 0 || over * e >= 0;
    assert over * e == x * e - b * e - q * e - e;
  }

  /**
   * In any interval of any run a key gets at most a burst and one request for
   * every refill that fits, whatever was forgotten and created again meanwhile.
   */
  lemma ThroughputBound(l: Limit, calls: seq<Call>, key: string, s: int, t: int, d: nat)
    requires Faithful(l, calls, d) && s <= t
    ensures Admissions(l, calls, |calls|, key, s, t) <= l.burst + (t - s) / l.every
  {
    var a := Admissions(l, calls, |calls|, key, s, t);
    AdmissionsAgree(l, calls, |calls|, key, s, t, d);
    CreditPaysForAdmissions(l, calls, |calls|, key, s, t);
    TokensIsProduct(l, a);
    QuotientBound(a, l.every, l.burst, t - s);
  }

  /** The bound of the above, on every run whose readings are at most d out of order. */
  ghost predicate Bounded(l: Limit, d: nat)
    requires l.Positive()
  {
    forall calls: seq<Call>, key: string, s: int, t: int | Skewed(calls, d) && s <= t ::
      Admissions(l, calls, |calls|, key, s, t) <= l.burst + (t - s) / l.every
  }

  /** The probe that tells a forgetful limiter apart is admitted a burst at T, and another at its last reading. */
  lemma {:induction false} ProbeFirstBurst(l: Limit, e: nat, r: nat, i: nat, s: int, t: int)
    requires l.Positive() && e < IDLE_AFTER && i <= l.burst && s <= T <= t
    ensures Admissions(l, Probes(l, e, r), i + 1, "key", s, t) >= i
  {
    if i > 0 {
      ProbeFirstBurst(l, e, r, i - 1, s, t);
      ProbeAdmittedAtFirst(l, e, r, i);
    }
  }

  lemma ProbeAdmittedAtFirst(l: Limit, e: nat, r: nat, i: nat)
    requires l.Positive() && e < IDLE_AFTER && 1 <= i <= l.burst
    ensures Probes(l, e, r)[i] == Call("key", T) && SweptAnswer(l, Probes(l, e, r), i).Admitted?
  {
    var calls := Probes(l, e, r);
    assert calls[i] == Probe(l, e, r, i);
    FullIsAtLeastOne(l);
    if i == 1 {
      ProbeOpens(l, e, r);
    } else {
      ProbeDrains(l, e, r, i - 1);
      TokensFit(l, l.burst - i);
      assert Draw(l, Bucket(Tokens(l, l.burst - i) + l.every, T), T).0 == Admitted;
    }
  }

  lemma {:induction false} ProbeSecondBurst(l: Limit, e: nat, r: nat, j: nat, s: int, t: int)
    requires l.Positive() && e < IDLE_AFTER && j <= l.burst && s <= T <= t && s <= r <= t
    requires r - (T - e + IDLE_AFTER + 1) < IDLE_AFTER
    ensures Admissions(l, Probes(l, e, r), l.burst + 3 + j, "key", s, t) >= l.burst + j
  {
    if j == 0 {
      ProbeFirstBurst(l, e, r, l.burst, s, t);
      assert Admissions(l, Probes(l, e, r), l.burst + 2, "key", s, t) >= l.burst;
    } else {
      ProbeSecondBurst(l, e, r, j - 1, s, t);
      ProbeAdmitted(l, e, r, j - 1);
      AdmittedNext(l, Probes(l, e, r), l.burst + 2 + j, "key", s, t);
    }
  }

  lemma AdmittedNext(l: Limit, calls: seq<Call>, n: nat, key: string, s: int, t: int)
    requires n < |calls| && Counts(calls[n], key, s, t) && SweptAnswer(l, calls, n).Admitted?
    ensures Admissions(l, calls, n + 1, key, s, t) == Admissions(l, calls, n, key, s, t) + 1
  {
  }

  lemma Overrun(l: Limit, e: nat, r: nat, d: nat, s: int, t: int)
    requires l.Positive() && e < IDLE_AFTER && e <= d && r >= T - e + IDLE_AFTER + 1 - d
    requires r - (T - e + IDLE_AFTER + 1) < IDLE_AFTER
    requires s <= T <= t && s <= r <= t && t - s < l.Full()
    ensures !Bounded(l, d)
  {
    var calls := Probes(l, e, r);
    ProbesSkewed(l, e, r, d);
    ProbeSecondBurst(l, e, r, l.burst, s, t);
    QuotientBelow(t - s, l.every, l.burst);
    assert Admissions(l, calls, |calls|, "key", s, t) > l.burst + (t - s) / l.every;
  }

  lemma QuotientBelow(y: nat, e: int, b: int)
    requires e > 0 && y < b * e
    ensures y / e < b
  {
    var q := y / e;
    assert y == q * e + y % e;
    var over := q - b;
    assert over >= 0 ==> over * e >= 0;
  }

  /** The throughput bound holds on every run exactly when forgetting a bucket shows in none. */
  lemma ThroughputBoundExactlyWhen(l: Limit, d: nat)
    requires l.Positive()
    ensures Bounded(l, d) <==> l.Full() + 2 * d <= IDLE_AFTER + 1
  {
    if l.Full() + 2 * d <= IDLE_AFTER + 1 {
      forall calls: seq<Call>, key: string, s: int, t: int | Skewed(calls, d) && s <= t
        ensures Admissions(l, calls, |calls|, key, s, t) <= l.burst + (t - s) / l.every
      {
        ThroughputBound(l, calls, key, s, t, d);
      }
    } else {
      FullIsAtLeastOne(l);
      if 2 * d <= IDLE_AFTER {
        Overrun(l, d, T - 2 * d + IDLE_AFTER + 1, d, T, T - 2 * d + IDLE_AFTER + 1);
      } else {
        Overrun(l, Min(d, IDLE_AFTER - 1), T, d, T, T);
      }
    }
  }

  // And no less: what is refused is one too many

  /** Requests of a key admitted among calls i up to, and not including, n. */
  function AdmittedFrom(l: Limit, calls: seq<Call>, i: nat, n: nat, key: string): nat
    requires i <= n <= |calls|
  {
    if i == n then 0
    else
      AdmittedFrom(l, calls, i, n - 1, key) +
      if calls[n - 1].key == key && SweptAnswer(l, calls, n - 1).Admitted? then 1 else 0
  }

  function ReferenceAdmittedFrom(l: Limit, calls: seq<Call>, i: nat, n: nat, key: string): nat
    requires i <= n <= |calls|
  {
    if i == n then 0
    else
      ReferenceAdmittedFrom(l, calls, i, n - 1, key) +
      if calls[n - 1].key == key && UnsweptAnswer(l, calls, n - 1).Admitted? then 1 else 0
  }

  lemma {:induction false} AdmittedFromAgree(l: Limit, calls: seq<Call>, i: nat, n: nat, key: string, d: nat)
    requires Faithful(l, calls, d) && i <= n <= |calls|
    ensures AdmittedFrom(l, calls, i, n, key) == ReferenceAdmittedFrom(l, calls, i, n, key)
    decreases n
  {
    if i < n {
      AdmittedFromAgree(l, calls, i, n - 1, key, d);
      ForgettingInvisible(l, calls, n - 1, d);
    }
  }

  /** What call i leaves a bucket with at most, spent down by what was admitted since. */
  function Allowance(l: Limit, calls: seq<Call>, i: nat, n: nat, key: string): int
    requires i <= n <= |calls| && i < |calls|
  {
    l.Full() - calls[i].at - Tokens(l, ReferenceAdmittedFrom(l, calls, i, n, key))
  }

  lemma AllowanceStep(l: Limit, calls: seq<Call>, i: nat, n: nat, key: string)
    requires i < n <= |calls|
    ensures Allowance(l, calls, i, n, key) == Allowance(l, calls, i, n - 1, key) -
            if calls[n - 1].key == key && UnsweptAnswer(l, calls, n - 1).Admitted? then l.every else 0
    ensures Allowance(l, calls, i, i, key) == l.Full() - calls[i].at
  {
    assert ReferenceAdmittedFrom(l, calls, i, i, key) == 0;
    var before := ReferenceAdmittedFrom(l, calls, i, n - 1, key);
    assert Tokens(l, before + 1) == Tokens(l, before) + l.every;
  }

  lemma {:induction false} NoCallLeavesMore(l: Limit, calls: seq<Call>, i: nat, n: nat)
    requires l.Positive() && i < n <= |calls|
    ensures calls[i].key in Unswept(l, calls, n)
    ensures Unswept(l, calls, n)[calls[i].key].Offset() <= Allowance(l, calls, i, n, calls[i].key)
    decreases n
  {
    FullIsAtLeastOne(l);
    AllowanceStep(l, calls, i, n, calls[i].key);
    if i < n - 1 { NoCallLeavesMore(l, calls, i, n - 1); }
  }

  lemma {:induction false} SomeCallLeavesAsMuch(l: Limit, calls: seq<Call>, key: string, n: nat) returns (i: nat)
    requires l.Positive() && n <= |calls| && key in Unswept(l, calls, n)
    ensures i < n && calls[i].key == key
    ensures Unswept(l, calls, n)[key].Offset() == Allowance(l, calls, i, n, key)
  {
    FullIsAtLeastOne(l);
    i := n - 1;
    if key in Unswept(l, calls, n - 1) {
      var j := SomeCallLeavesAsMuch(l, calls, key, n - 1);
      if calls[n - 1].key != key || Unswept(l, calls, n - 1)[key].Offset() <= l.Full() - calls[n - 1].at {
        i := j;
      }
    }
    AllowanceStep(l, calls, i, n, key);
  }

  lemma ReferenceRefusesExactlyWhenSpent(l: Limit, calls: seq<Call>, n: nat)
    requires l.Positive() && n < |calls|
    ensures UnsweptAnswer(l, calls, n).Refused? <==>
            exists i :: 0 <= i < n && calls[i].key == calls[n].key &&
              Allowance(l, calls, i, n, calls[n].key) + calls[n].at < l.every
  {
    var key := calls[n].key;
    FullIsAtLeastOne(l);
    forall i | 0 <= i < n && calls[i].key == key
      ensures key in Unswept(l, calls, n) && Unswept(l, calls, n)[key].Offset() <= Allowance(l, calls, i, n, key)
    {
      NoCallLeavesMore(l, calls, i, n);
    }
    if UnsweptAnswer(l, calls, n).Refused? {
      var i := SomeCallLeavesAsMuch(l, calls, key, n);
    }
  }

  /**
   * A call is refused exactly if it is one too many for some stretch of its key's
   * calls: from an earlier one on, the tokens of what was admitted and one more
   * are over a bucketful and the refill of the time since.
   */
  lemma RefusedExactlyWhenSpent(l: Limit, calls: seq<Call>, n: nat, d: nat)
    requires Faithful(l, calls, d) && n < |calls|
    ensures SweptAnswer(l, calls, n).Refused? <==>
            exists i :: 0 <= i < n && calls[i].key == calls[n].key &&
              Tokens(l, AdmittedFrom(l, calls, i, n, calls[n].key)) + l.every > l.Full() + (calls[n].at - calls[i].at)
  {
    ForgettingInvisible(l, calls, n, d);
    ReferenceRefusesExactlyWhenSpent(l, calls, n);
    forall i | 0 <= i < n
      ensures AdmittedFrom(l, calls, i, n, calls[n].key) == ReferenceAdmittedFrom(l, calls, i, n, calls[n].key)
    {
      AdmittedFromAgree(l, calls, i, n, calls[n].key, d);
    }
  }

  // Refused calls leave no trace

  ghost predicate SameOffsets(m: Buckets, m': Buckets) {
    m.Keys == m'.Keys && forall k :: k in m ==> m[k].Offset() == m'[k].Offset()
  }

  lemma OffsetsDecide(l: Limit, m: Buckets, m': Buckets, c: Call)
    requires SameOffsets(m, m')
    ensures Answered(l, m, c) == Answered(l, m', c)
    ensures SameOffsets(Updated(l, m, c), Updated(l, m', c))
  {
  }

  lemma RefusalKeepsOffsets(l: Limit, m: Buckets, c: Call)
    requires l.Positive() && Answered(l, m, c).Refused?
    ensures SameOffsets(m, Updated(l, m, c))
  {
    FullIsAtLeastOne(l);
  }

  function Without(calls: seq<Call>, i: nat): (r: seq<Call>)
    requires i < |calls|
    ensures |r| == |calls| - 1
    ensures forall j :: 0 <= j < |r| ==> r[j] == calls[if j < i then j else j + 1]
  {
    calls[..i] + calls[i + 1..]
  }

  lemma {:induction false} BeforeTheRefusal(l: Limit, calls: seq<Call>, i: nat, n: nat)
    requires n <= i < |calls|
    ensures Unswept(l, Without(calls, i), n) == Unswept(l, calls, n)
  {
    if n > 0 { BeforeTheRefusal(l, calls, i, n - 1); }
  }

  lemma {:induction false} AfterTheRefusal(l: Limit, calls: seq<Call>, i: nat, n: nat)
    requires l.Positive() && i <= n < |calls| && UnsweptAnswer(l, calls, i).Refused?
    ensures SameOffsets(Unswept(l, Without(calls, i), n), Unswept(l, calls, n + 1))
  {
    if n == i {
      BeforeTheRefusal(l, calls, i, n);
      RefusalKeepsOffsets(l, Unswept(l, calls, i), calls[i]);
    } else {
      AfterTheRefusal(l, calls, i, n - 1);
      OffsetsDecide(l, Unswept(l, Without(calls, i), n - 1), Unswept(l, calls, n), calls[n]);
    }
  }

  /** Taking a refused call out of a run, or putting one in, changes no other answer. */
  lemma RefusalsAreTransparent(l: Limit, calls: seq<Call>, i: nat, j: nat, d: nat)
    requires Faithful(l, calls, d) && i < |calls| && SweptAnswer(l, calls, i).Refused?
    requires j < |calls| && j != i
    ensures SweptAnswer(l, Without(calls, i), if j < i then j else j - 1) == SweptAnswer(l, calls, j)
  {
    var rest, n := Without(calls, i), if j < i then j else j - 1;
    assert Skewed(rest, d);
    ForgettingInvisible(l, calls, i, d);
    ForgettingInvisible(l, calls, j, d);
    ForgettingInvisible(l, rest, n, d);
    if j < i {
      BeforeTheRefusal(l, calls, i, j);
    } else {
      AfterTheRefusal(l, calls, i, n);
      OffsetsDecide(l, Unswept(l, rest, n), Unswept(l, calls, j), calls[j]);
    }
  }

  // The wait a refusal names

  /** Calls of the same key strictly between i and j come before the wait is over. */
  ghost predicate Impatient(calls: seq<Call>, i: nat, j: nat, until: int)
    requires i < j <= |calls|
  {
    forall k :: i < k < j && calls[k].key == calls[i].key ==> calls[k].at < until
  }

  lemma {:induction false} WaitingKeepsTheOffset(l: Limit, calls: seq<Call>, i: nat, n: nat, wait: int)
    requires l.Positive() && i < n <= |calls| && UnsweptAnswer(l, calls, i) == Refused(wait)
    requires Impatient(calls, i, n, calls[i].at + wait)
    ensures calls[i].key in Unswept(l, calls, n)
    ensures Unswept(l, calls, n)[calls[i].key].Offset() == l.every - wait - calls[i].at
  {
    FullIsAtLeastOne(l);
    if n > i + 1 { WaitingKeepsTheOffset(l, calls, i, n - 1, wait); }
  }

  /**
   * The wait is exact: however often the key asks again meanwhile, its calls are
   * refused until that much later and admitted from then on.
   */
  lemma WaitIsExact(l: Limit, calls: seq<Call>, i: nat, j: nat, wait: int, d: nat)
    requires Faithful(l, calls, d) && i < j < |calls| && calls[j].key == calls[i].key
    requires SweptAnswer(l, calls, i) == Refused(wait)
    requires Impatient(calls, i, j, calls[i].at + wait)
    ensures SweptAnswer(l, calls, j).Admitted? <==> calls[j].at >= calls[i].at + wait
    ensures wait > 0
  {
    ForgettingInvisible(l, calls, i, d);
    ForgettingInvisible(l, calls, j, d);
    WaitingKeepsTheOffset(l, calls, i, j, wait);
    FullIsAtLeastOne(l);
  }
}
