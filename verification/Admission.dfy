/**
 What the admission test of mp2.c guarantees. README.md of the scheduler asks for the
 utilisation bound: the sum of C/P at most 0.693. The code compares the sum of C with the sum of P.
 */
module Admission {
  import opened SchedulerEffects
  import opened SchedulerModel
  import opened Words
  import opened Sequences

  datatype Demand = Demand(period: ulong, time: ulong)

  /** The demands an admission check adds up: the listed tasks, then the candidate. */
  ghost function Load(s: State, r: Request, n: nat): (ds: seq<Demand>)
    requires WF(s) && n <= |s.list|
    ensures |ds| == n + 1
  {
    if n == 0 then [Demand(r.period, r.processingTime)]
    else
      var t := s.tasks[s.list[n - 1]];
      [Demand(t.period, t.processingTime)] + Load(s, r, n - 1)
  }

  ghost function Periods(ds: seq<Demand>): nat {
    if ds == [] then 0 else ds[0].period + Periods(ds[1..])
  }

  ghost function Times(ds: seq<Demand>): nat {
    if ds == [] then 0 else ds[0].time + Times(ds[1..])
  }

  ghost predicate Positive(ds: seq<Demand>) {
    forall i | 0 <= i < |ds| :: ds[i].period > 0
  }

  ghost function Ratio(d: Demand): real
    requires d.period > 0
  {
    d.time as real / d.period as real
  }

  ghost function Utilisation(ds: seq<Demand>): real
    requires Positive(ds)
  {
    if ds == [] then 0.0 else Ratio(ds[0]) + Utilisation(ds[1..])
  }

  ghost predicate NoOverflow(ds: seq<Demand>) {
    Periods(ds) <= ULONG_MAX && Times(ds) * 1000 <= ULONG_MAX
  }

  ghost predicate Accepted(ds: seq<Demand>) {
    AdmissionTest(WrapU64(Periods(ds)), WrapU64(Times(ds))) == Admitted
  }

  // ---------------------------------------------------------------- the test as an inequality

  lemma {:induction false} LoadTotals(s: State, r: Request, n: nat)
    requires WF(s) && n <= |s.list|
    ensures Periods(Load(s, r, n)) == SumPeriods(s, n) + r.period
    ensures Times(Load(s, r, n)) == SumTimes(s, n) + r.processingTime
  {
    if n > 0 {
      LoadTotals(s, r, n - 1);
    } else {
      assert Load(s, r, 0)[1..] == [];
    }
  }

  /** An admission check is this test on the load. */
  lemma AdmissionIsAccepted(s: State, r: Request)
    requires WF(s)
    ensures Admission(s, r) == Admitted <==> Accepted(Load(s, r, |s.list|))
  {
    LoadTotals(s, r, |s.list|);
  }

  /** The load is made of the numbers of each listed task and of the candidate. */
  lemma {:induction false} LoadMembers(s: State, r: Request, n: nat)
    requires WF(s) && n <= |s.list|
    ensures Load(s, r, n)[n] == Demand(r.period, r.processingTime)
    ensures forall i | 0 <= i < n ::
              Load(s, r, n)[n - 1 - i] == Demand(s.tasks[s.list[i]].period, s.tasks[s.list[i]].processingTime)
  {
    if n == 0 {
    } else {
      LoadMembers(s, r, n - 1);
    }
  }

  /** In a run, what an admission check adds up for the i-th listed task is what its admitted request asked for. */
  lemma LoadWasRequested(toJiffies: nat -> nat, es: seq<Event>, candidate: Request, i: nat)
    returns (at: nat, h: nat, r: Request)
    requires i < |Run(Init(toJiffies), es).list|
    ensures var s := Run(Init(toJiffies), es);
      && h == s.list[i] && InsertedAt(Init(toJiffies), es, at, h, r)
      && Load(s, candidate, |s.list|)[|s.list| - 1 - i] == Demand(r.period, r.processingTime)
  {
    var s := Run(Init(toJiffies), es);
    h := s.list[i];
    at, r := TaskWasRequested(Init(toJiffies), es, h);
    LoadMembers(s, candidate, |s.list|);
  }

  /** The check divides by zero exactly when the periods add up to zero in a word; otherwise it accepts or rejects. */
  lemma TrapIff(s: State, r: Request)
    requires WF(s)
    ensures Admission(s, r) == DivideByZero <==> Periods(Load(s, r, |s.list|)) % 0x1_0000_0000_0000_0000 == 0
    ensures Admission(s, r) == Rejected <==>
              Admission(s, r) != DivideByZero && !Accepted(Load(s, r, |s.list|))
  {
    LoadTotals(s, r, |s.list|);
  }

  lemma {:induction false} SomePeriod(ds: seq<Demand>)
    requires ds != [] && Positive(ds)
    ensures Periods(ds) > 0
  {
  }

  lemma WrapSmall(x: nat)
    requires x <= ULONG_MAX
    ensures WrapU64(x) == x
  {
  }

  lemma QuotientBelow(a: nat, b: nat, q: nat)
    requires b > 0
    ensures a / b <= q <==> a < (q + 1) * b
  {
    var d := a / b;
    assert a == d * b + a % b;
    if d <= q {
      assert d * b <= q * b;
    } else {
      assert d * b >= (q + 1) * b;
    }
  }

  lemma TestIff(p: ulong, t: ulong)
    requires p > 0 && t * 1000 <= ULONG_MAX
    ensures AdmissionTest(p, t) == Admitted <==> 1000 * t < 694 * p
  {
    WrapSmall(t * 1000);
    QuotientBelow(t * 1000, p, 693);
  }

  /** Without overflow the fixed-point test is 1000 * (sum of C) < 694 * (sum of P). */
  lemma AcceptedIff(ds: seq<Demand>)
    requires ds != [] && Positive(ds) && NoOverflow(ds)
    ensures Accepted(ds) <==> 1000 * Times(ds) < 694 * Periods(ds)
  {
    SomePeriod(ds);
    WrapSmall(Periods(ds));
    WrapSmall(Times(ds));
    TestIff(Periods(ds), Times(ds));
  }

  // ---------------------------------------------------------------- the utilisation bound

  lemma ProductMonotone(a: real, b: real, c: real)
    requires a <= b && c >= 0.0
    ensures a * c <= b * c && c * a <= c * b
  {
  }

  lemma RatioFacts(d: Demand, m: real)
    requires d.period > 0
    ensures Ratio(d) >= 0.0
    ensures Ratio(d) <= m ==> d.time as real <= m * d.period as real
    ensures 0.0 < m <= d.period as real ==> Ratio(d) * m <= d.time as real
  {
    var p := d.period as real;
    assert Ratio(d) * p == d.time as real;
    if Ratio(d) <= m {
      ProductMonotone(Ratio(d), m, p);
    }
    if 0.0 < m <= p {
      ProductMonotone(m, p, Ratio(d));
    }
  }

  lemma {:induction false} UtilisationNonNegative(ds: seq<Demand>)
    requires Positive(ds)
    ensures Utilisation(ds) >= 0.0
  {
    if ds == [] {
    } else {
      RatioFacts(ds[0], 0.0);
      UtilisationNonNegative(ds[1..]);
    }
  }

  lemma {:induction false} UtilisationBoundsTimes(ds: seq<Demand>)
    requires Positive(ds) && Utilisation(ds) <= 0.693
    ensures Times(ds) as real <= 0.693 * Periods(ds) as real
  {
    if ds == [] {
    } else {
      RatioFacts(ds[0], 0.693);
      UtilisationNonNegative(ds[1..]);
      UtilisationBoundsTimes(ds[1..]);
    }
  }

  /** The test never turns away a set that meets the bound README.md asks for. */
  lemma WithinBoundIsAccepted(ds: seq<Demand>)
    requires ds != [] && Positive(ds) && NoOverflow(ds)
    requires Utilisation(ds) <= 0.693
    ensures Accepted(ds)
  {
    UtilisationBoundsTimes(ds);
    SomePeriod(ds);
    AcceptedIff(ds);
  }

  lemma SumOfQuotients(a: nat, b: nat, m: real)
    requires m > 0.0
    ensures a as real / m + b as real / m == (a + b) as real / m
  {
  }

  lemma SignOfProduct(a: real, m: real)
    requires m > 0.0
    ensures a * m > 0.0 <==> a > 0.0
    ensures a * m >= 0.0 <==> a >= 0.0
  {
  }

  /** x / m is the one number whose product with m is x. */
  lemma QuotientAgainst(u: real, m: real, x: real)
    requires m > 0.0
    ensures u * m < x <==> u < x / m
    ensures u * m <= x <==> u <= x / m
  {
    var q := x / m;
    assert q * m == x;
    SignOfProduct(q - u, m);
    assert (q - u) * m == q * m - u * m;
  }

  lemma RatioByShortest(d: Demand, shortest: nat)
    requires 0 < shortest <= d.period
    ensures Ratio(d) <= d.time as real / shortest as real
  {
    RatioFacts(d, shortest as real);
    QuotientAgainst(Ratio(d), shortest as real, d.time as real);
  }

  lemma {:induction false} UtilisationByShortest(ds: seq<Demand>, shortest: nat)
    requires shortest > 0 && forall i | 0 <= i < |ds| :: ds[i].period >= shortest
    ensures Utilisation(ds) <= Times(ds) as real / shortest as real
  {
    if ds == [] {
    } else {
      RatioByShortest(ds[0], shortest);
      UtilisationByShortest(ds[1..], shortest);
      SumOfQuotients(ds[0].time, Times(ds[1..]), shortest as real);
    }
  }

  lemma QuotientsInOrder(m: real, t: nat, p: nat)
    requires m > 0.0 && 1000 * t < 694 * p
    ensures t as real / m < 0.694 * (p as real / m)
  {
    var a, b := t as real / m, p as real / m;
    assert a * m == t as real && b * m == p as real;
    SignOfProduct(0.694 * b - a, m);
    assert (0.694 * b - a) * m == 0.694 * (b * m) - a * m;
  }

  lemma SlackUtilisation(ds: seq<Demand>, shortest: nat)
    requires Positive(ds) && shortest > 0 && (forall i | 0 <= i < |ds| :: ds[i].period >= shortest)
    requires 1000 * Times(ds) < 694 * Periods(ds)
    ensures Utilisation(ds) < 0.694 * (Periods(ds) as real / shortest as real)
  {
    UtilisationByShortest(ds, shortest);
    QuotientsInOrder(shortest as real, Times(ds), Periods(ds));
  }

  /** What acceptance does give: utilisation below 0.694 * (sum of P / shortest P). */
  lemma AcceptedUtilisation(ds: seq<Demand>, shortest: nat)
    requires ds != [] && Positive(ds) && shortest > 0 && (forall i | 0 <= i < |ds| :: ds[i].period >= shortest)
    requires NoOverflow(ds) && Accepted(ds)
    ensures Utilisation(ds) < 0.694 * (Periods(ds) as real / shortest as real)
  {
    AcceptedIff(ds);
    SlackUtilisation(ds, shortest);
  }

  // ---------------------------------------------------------------- all the work on one task

  /** These periods, with some processing times the arithmetic can hold. */
  ghost predicate HasPeriods(ds: seq<Demand>, ps: seq<ulong>) {
    |ds| == |ps| && forall i | 0 <= i < |ps| :: ds[i].period == ps[i]
  }

  ghost function Idle(ps: seq<ulong>): (ds: seq<Demand>)
    ensures HasPeriods(ds, ps)
  {
    seq(|ps|, i requires 0 <= i < |ps| => Demand(ps[i], 0))
  }

  lemma {:induction false} IdleTotals(ps: seq<ulong>)
    requires forall i | 0 <= i < |ps| :: ps[i] > 0
    ensures Times(Idle(ps)) == 0 && Utilisation(Idle(ps)) == 0.0
  {
    if ps == [] {
    } else {
      assert Idle(ps)[1..] == Idle(ps[1..]);
      IdleTotals(ps[1..]);
    }
  }

  /** All processing time on task k: C[k] == c, every other time 0. */
  lemma {:induction false} LoneWorker(ps: seq<ulong>, k: nat, c: ulong)
    requires k < |ps| && forall i | 0 <= i < |ps| :: ps[i] > 0
    ensures var ds := Idle(ps)[k := Demand(ps[k], c)];
      Times(ds) == c && Positive(ds) && Utilisation(ds) == c as real / ps[k] as real
  {
    var ds := Idle(ps)[k := Demand(ps[k], c)];
    if k == 0 {
      assert ds[1..] == Idle(ps[1..]);
      IdleTotals(ps[1..]);
    } else {
      assert ds[1..] == Idle(ps[1..])[k - 1 := Demand(ps[k], c)];
      LoneWorker(ps[1..], k - 1, c);
    }
  }

  lemma {:induction false} PeriodAtLeast(ds: seq<Demand>, k: nat)
    requires k < |ds|
    ensures Periods(ds) >= ds[k].period
  {
    if k == 0 {
    } else {
      PeriodAtLeast(ds[1..], k - 1);
    }
  }

  lemma {:induction false} PeriodsAtLeast(ds: seq<Demand>, j: nat, k: nat)
    requires j < k < |ds|
    ensures Periods(ds) >= ds[j].period + ds[k].period
  {
    if j > 0 {
      PeriodsAtLeast(ds[1..], j - 1, k - 1);
    } else {
      PeriodAtLeast(ds[1..], k - 1);
    }
  }

  /** 694 thousandths of a period, rounded up. */
  function FullShare(p: nat): (c: nat)
    ensures 694 * p <= 1000 * c < 694 * p + 1000
  {
    (694 * p + 999) / 1000
  }

  lemma FullShareUtilisation(p: nat)
    requires p > 0
    ensures FullShare(p) as real / p as real >= 0.694
  {
    QuotientAgainst(0.694, p as real, FullShare(p) as real);
  }

  /** Some accepted set with these periods, overflow aside, reaches utilisation 0.694. */
  ghost predicate OverloadAccepted(ps: seq<ulong>) {
    exists ds: seq<Demand> ::
      HasPeriods(ds, ps) && Positive(ds) && NoOverflow(ds) && Accepted(ds) && Utilisation(ds) >= 0.694
  }

  lemma {:induction false} SamePeriods(ds: seq<Demand>, es: seq<Demand>)
    requires |ds| == |es| && forall i | 0 <= i < |ds| :: ds[i].period == es[i].period
    ensures Periods(ds) == Periods(es)
  {
    if ds == [] {
    } else {
      SamePeriods(ds[1..], es[1..]);
    }
  }

  /** With a second task, the one of the two with the shorter period can be given a full 0.694 by itself. */
  lemma TwoTasksOverload(ps: seq<ulong>)
    requires |ps| >= 2 && (forall i | 0 <= i < |ps| :: ps[i] > 0)
    requires 1000 * Periods(Idle(ps)) <= ULONG_MAX
    ensures OverloadAccepted(ps)
  {
    var k := if ps[0] <= ps[1] then 0 else 1;
    PeriodsAtLeast(Idle(ps), 0, 1);
    var c := FullShare(ps[k]);
    assert 1000 * c < 694 * Periods(Idle(ps));
    var ds := Idle(ps)[k := Demand(ps[k], c)];
    LoneWorker(ps, k, c);
    SamePeriods(ds, Idle(ps));
    AcceptedIff(ds);
    FullShareUtilisation(ps[k]);
    assert HasPeriods(ds, ps) && Positive(ds) && NoOverflow(ds);
  }

  lemma LonePeriods(ds: seq<Demand>)
    requires |ds| == 1 && Positive(ds)
    ensures Periods(ds) as real / ds[0].period as real == 1.0
  {
    assert ds[1..] == [];
  }

  /** What acceptance does give: utilisation below 0.694 exactly when the candidate is alone. */
  lemma OverloadAcceptedIffOthers(ps: seq<ulong>)
    requires ps != [] && (forall i | 0 <= i < |ps| :: ps[i] > 0)
    requires 1000 * Periods(Idle(ps)) <= ULONG_MAX
    ensures OverloadAccepted(ps) <==> |ps| >= 2
  {
    if |ps| >= 2 {
      TwoTasksOverload(ps);
    } else {
      forall ds: seq<Demand> | HasPeriods(ds, ps) && Positive(ds) && NoOverflow(ds) && Accepted(ds)
        ensures Utilisation(ds) < 0.694
      {
        AcceptedUtilisation(ds, ps[0]);
        LonePeriods(ds);
      }
    }
  }

  // ---------------------------------------------------------------- when acceptance implies the bound

  /** Whatever is accepted with these periods, without overflow, meets the bound asked for. */
  ghost predicate AcceptanceImpliesBound(ps: seq<ulong>)
    requires forall i | 0 <= i < |ps| :: ps[i] > 0
  {
    forall ds: seq<Demand> | HasPeriods(ds, ps) && Positive(ds) && NoOverflow(ds) && Accepted(ds) ::
      Utilisation(ds) <= 0.693
  }

  /** The most processing time that is accepted beside periods of sum p, without overflow. */
  function MostAccepted(p: nat): (t: nat)
    requires p > 0
    ensures forall u: nat :: 1000 * u < 694 * p && 1000 * u <= ULONG_MAX <==> u <= t
  {
    var a, b := (694 * p - 1) / 1000, ULONG_MAX / 1000;
    if a < b then a else b
  }

  ghost predicate Within(c: nat, p: nat) {
    1000 * c <= 693 * p
  }

  lemma RatioAgainstBound(c: nat, p: nat)
    requires p > 0
    ensures c as real / p as real <= 0.693 <==> Within(c, p)
  {
    QuotientAgainst(0.693, p as real, c as real);
  }

  lemma QuotientMonotone(a: nat, b: nat, p: nat)
    requires a <= b && p > 0
    ensures a as real / p as real <= b as real / p as real
  {
    QuotientAgainst(a as real / p as real, p as real, b as real);
  }

  ghost predicate Shortest(ps: seq<ulong>, k: nat) {
    k < |ps| && forall i | 0 <= i < |ps| :: 0 < ps[k] <= ps[i]
  }

  lemma AcceptedLoneWorker(ps: seq<ulong>, k: nat, c: nat)
    requires Shortest(ps, k) && 0 < Periods(Idle(ps)) <= ULONG_MAX
    requires c <= MostAccepted(Periods(Idle(ps))) && !Within(c, ps[k])
    ensures !AcceptanceImpliesBound(ps)
  {
    var ds := Idle(ps)[k := Demand(ps[k], c)];
    LoneWorker(ps, k, c);
    SamePeriods(ds, Idle(ps));
    AcceptedIff(ds);
    RatioAgainstBound(c, ps[k]);
    assert HasPeriods(ds, ps) && Positive(ds) && NoOverflow(ds);
  }

  /** The worst accepted set puts all processing time on a task of shortest period. */
  lemma AcceptanceImpliesBoundIff(ps: seq<ulong>, k: nat)
    requires Shortest(ps, k) && 0 < Periods(Idle(ps)) <= ULONG_MAX
    ensures AcceptanceImpliesBound(ps) <==> Within(MostAccepted(Periods(Idle(ps))), ps[k])
  {
    var p := Periods(Idle(ps));
    var c := MostAccepted(p);
    RatioAgainstBound(c, ps[k]);
    if Within(c, ps[k]) {
      forall ds: seq<Demand> | HasPeriods(ds, ps) && Positive(ds) && NoOverflow(ds) && Accepted(ds)
        ensures Utilisation(ds) <= 0.693
      {
        AcceptedIff(ds);
        SamePeriods(ds, Idle(ps));
        UtilisationByShortest(ds, ps[k]);
        QuotientMonotone(Times(ds), c, ps[k]);
      }
    } else {
      AcceptedLoneWorker(ps, k, c);
    }
  }

  lemma SomeShortest(ps: seq<ulong>) returns (k: nat)
    requires ps != [] && forall i | 0 <= i < |ps| :: ps[i] > 0
    ensures Shortest(ps, k)
  {
    if |ps| == 1 {
      k := 0;
    } else {
      k := SomeShortest(ps[..|ps| - 1]);
      assert forall i | 0 <= i < |ps| - 1 :: ps[i] == ps[..|ps| - 1][i];
      k := if ps[k] <= ps[|ps| - 1] then k else |ps| - 1;
    }
  }

  /**
   Away from overflow, acceptance implies the bound exactly when the candidate is alone and no multiple of 1000
   lies above 693 and below 694 times its period. No period above a second qualifies.
   */
  lemma AcceptanceImpliesBoundIffAlone(ps: seq<ulong>)
    requires ps != [] && (forall i | 0 <= i < |ps| :: ps[i] > 0)
    requires 1000 * Periods(Idle(ps)) <= ULONG_MAX
    ensures AcceptanceImpliesBound(ps) <==> |ps| == 1 && 1000 * (693 * ps[0] / 1000 + 1) >= 694 * ps[0]
    ensures |ps| > 1 || ps[0] > 1000 ==> !AcceptanceImpliesBound(ps)
  {
    var k := SomeShortest(ps);
    PeriodAtLeast(Idle(ps), k);
    AcceptanceImpliesBoundIff(ps, k);
    if |ps| == 1 {
      assert Idle(ps)[1..] == [];
      assert Periods(Idle(ps)) == ps[0];
    } else if k == 0 {
      PeriodsAtLeast(Idle(ps), 0, 1);
    } else {
      PeriodsAtLeast(Idle(ps), 0, k);
    }
  }

  /** A candidate alone at 0.6935 is accepted: the division drops what is beyond the third decimal. */
  lemma LoneAboveBound()
    ensures var ds := [Demand(10000, 6935)];
      NoOverflow(ds) && Accepted(ds) && Utilisation(ds) == 0.6935
  {
    assert [Demand(10000, 6935)][1..] == [];
  }

  lemma {:induction false} TotalsWithout(ds: seq<Demand>, i: nat)
    requires i < |ds|
    ensures Periods(RemoveAt(ds, i)) == Periods(ds) - ds[i].period
    ensures Times(RemoveAt(ds, i)) == Times(ds) - ds[i].time
  {
    if i == 0 {
      assert RemoveAt(ds, 0) == ds[1..];
    } else {
      assert RemoveAt(ds, i)[1..] == RemoveAt(ds[1..], i - 1);
      TotalsWithout(ds[1..], i - 1);
    }
  }

  /**
   A registered set need not keep passing the test: once task i is deregistered it passes exactly when the
   others alone do better than the ratio of what i took with it.
   */
  lemma AcceptedWithout(ds: seq<Demand>, i: nat)
    requires i < |ds| && |ds| > 1 && Positive(ds) && NoOverflow(ds) && Accepted(ds)
    ensures Accepted(RemoveAt(ds, i))
            <==> 694 * ds[i].period - 1000 * ds[i].time < 694 * Periods(ds) - 1000 * Times(ds)
  {
    TotalsWithout(ds, i);
    AcceptedIff(RemoveAt(ds, i));
  }

  /** So a long idle task can carry in a set that fails without it. */
  lemma DeregistrationCanUnadmit()
    ensures var ds := [Demand(1000, 1), Demand(10, 10)];
      Accepted(ds) && !Accepted(RemoveAt(ds, 0))
  {
    var ds := [Demand(1000, 1), Demand(10, 10)];
    assert ds[1..] == [Demand(10, 10)] && ds[1..][1..] == [];
    assert Periods(ds) == 1010 && Times(ds) == 11;
    AcceptedIff(ds);
    AcceptedWithout(ds, 0);
  }

  // ---------------------------------------------------------------- overflow

  /** The verdict on processing times up to n is the one the inequality calls for. */
  ghost predicate ExactUpTo(p: ulong, n: nat)
    requires p > 0
  {
    forall t: ulong | t <= n :: AdmissionTest(p, t) == Admitted <==> 1000 * t < 694 * p
  }

  lemma TestOfWrapped(p: ulong, t: ulong)
    requires p > 0
    ensures AdmissionTest(p, t) == Admitted <==> WrapU64(1000 * t) < 694 * p
  {
    QuotientBelow(WrapU64(1000 * t), p, 693);
  }

  /** The test is exact up to the first total whose product wraps; only totals that pass anyway may go beyond. */
  lemma ExactIff(p: ulong, n: nat)
    requires p > 0
    ensures ExactUpTo(p, n) <==> 1000 * n <= ULONG_MAX || 1000 * n < 694 * p
  {
    if 1000 * n <= ULONG_MAX || 1000 * n < 694 * p {
      forall t: ulong | t <= n
        ensures AdmissionTest(p, t) == Admitted <==> 1000 * t < 694 * p
      {
        TestOfWrapped(p, t);
      }
    } else {
      var t: ulong :=
        if 694 * p <= ULONG_MAX then 18446744073709552 else if n <= ULONG_MAX then n else ULONG_MAX;
      TestOfWrapped(p, t);
      assert AdmissionTest(p, t) == Admitted && 1000 * t >= 694 * p;
    }
  }

  /** Some accepted set with these periods, overflow permitted, breaks the bound. */
  ghost predicate BoundCanBreak(ps: seq<ulong>) {
    exists ds: seq<Demand> :: HasPeriods(ds, ps) && Positive(ds) && Accepted(ds) && Utilisation(ds) > 0.693
  }

  /** With overflow every set of periods has an overloaded set that is accepted, unless the division traps. */
  lemma OverflowBreaksBound(ps: seq<ulong>)
    requires ps != [] && forall i | 0 <= i < |ps| :: ps[i] > 0
    ensures BoundCanBreak(ps) <==> WrapU64(Periods(Idle(ps))) != 0
  {
    var c: ulong := 7 * 0x2000_0000_0000_0000;
    var ds := Idle(ps)[0 := Demand(ps[0], c)];
    LoneWorker(ps, 0, c);
    SamePeriods(ds, Idle(ps));
    RatioAgainstBound(c, ps[0]);
    assert WrapU64(c) == c && WrapU64(c * 1000) == 0;
    assert HasPeriods(ds, ps) && Positive(ds) && Utilisation(ds) > 0.693;
    if BoundCanBreak(ps) {
      var es: seq<Demand> :| HasPeriods(es, ps) && Positive(es) && Accepted(es) && Utilisation(es) > 0.693;
      SamePeriods(es, Idle(ps));
    }
  }

  /** 2^61 ms of work every millisecond is admitted. */
  lemma OverflowIsAccepted()
    ensures var d := Demand(1, 0x2000_0000_0000_0000);
      Accepted([d]) && Utilisation([d]) > 1000000.0
  {
    var d := Demand(1, 0x2000_0000_0000_0000);
    assert [d][1..] == [];
    assert Utilisation([d]) == Ratio(d) == d.time as real;
  }
}
