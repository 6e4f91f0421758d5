/** CPU usage from two snapshots of per-core counters.  Counters are 64-bit and wrap, and so
    do the sums over the cores; percentages are reals. */
module CpuMetrics {
  import opened Basics
  import opened Sums

  const M: nat := 0x1_0000_0000_0000_0000

  type u64 = n: int | 0 <= n < M

  /** Unsigned 64-bit addition and subtraction, with wrap-around. */
  function Add(a: u64, b: u64): u64 {
    if a + b < M then a + b else a + b - M
  }

  function Sub(a: u64, b: u64): u64 {
    if a >= b then a - b else a - b + M
  }

  /** The 64-bit value of an exact sum. */
  function Wrap(n: nat): u64 {
    n % M
  }

  datatype Times = Times(idle: u64, kernel: u64, user: u64)

  /** idle_delta and total_delta of one core (or of the sums). */
  datatype Delta = Delta(idle: u64, total: u64)

  function DeltaOf(prev: Times, curr: Times): Delta {
    Delta(Sub(curr.idle, prev.idle), Add(Sub(curr.kernel, prev.kernel), Sub(curr.user, prev.user)))
  }

  function Percent(d: Delta): real {
    if d.total == 0 then 0.0 else Sub(d.total, d.idle) as real / d.total as real * 100.0
  }

  function Plus(a: Times, b: Times): Times {
    Times(Add(a.idle, b.idle), Add(a.kernel, b.kernel), Add(a.user, b.user))
  }

  function Deltas(prev: seq<Times>, curr: seq<Times>): seq<Delta>
    requires |prev| == |curr|
  {
    seq(|prev|, i requires 0 <= i < |prev| => DeltaOf(prev[i], curr[i]))
  }

  function IdleOf(d: Delta): nat {
    d.idle
  }

  function TotalOf(d: Delta): nat {
    d.total
  }

  // ---- Wrapping sums ----

  lemma WrapNext(n: nat, d: u64)
    ensures Wrap(n + d) == Add(Wrap(n), d)
  {
  }

  lemma SubAdd(a: u64, x: u64, b: u64, y: u64)
    ensures Sub(Add(a, x), Add(b, y)) == Add(Sub(a, b), Sub(x, y))
  {
  }

  lemma AddSwap(a: u64, b: u64, c: u64, d: u64)
    ensures Add(Add(a, b), Add(c, d)) == Add(Add(a, c), Add(b, d))
  {
  }

  /** The delta of the sums is the wrapped sum of the deltas. */
  lemma DeltaOfPlus(p: Times, q: Times, p': Times, q': Times)
    ensures DeltaOf(Plus(p, q), Plus(p', q')).idle == Add(DeltaOf(p, p').idle, DeltaOf(q, q').idle)
    ensures DeltaOf(Plus(p, q), Plus(p', q')).total == Add(DeltaOf(p, p').total, DeltaOf(q, q').total)
  {
    SubAdd(p'.idle, q'.idle, p.idle, q.idle);
    SubAdd(p'.kernel, q'.kernel, p.kernel, q.kernel);
    SubAdd(p'.user, q'.user, p.user, q.user);
    AddSwap(Sub(p'.kernel, p.kernel), Sub(q'.kernel, q.kernel), Sub(p'.user, p.user), Sub(q'.user, q.user));
  }

  // ---- Bounds ----

  /** No core was idle for longer than it ran. */
  predicate Sane(ds: seq<Delta>) {
    forall i | 0 <= i < |ds| :: ds[i].idle <= ds[i].total
  }

  lemma QuotientTimes(a: real, t: real)
    requires t > 0.0
    ensures a / t * 100.0 * t == a * 100.0
  {
    assert a / t * t == a;
  }

  lemma FractionInRange(p: real, busy: real, t: real)
    requires 0.0 <= busy <= t && t > 0.0 && p * t == busy * 100.0
    ensures 0.0 <= p <= 100.0
  {
    CancelFactor(0.0, p, t);
    CancelFactor(p, 100.0, t);
  }

  lemma PercentInRange(d: Delta)
    requires d.idle <= d.total
    ensures Percent(d) * d.total as real == (d.total - d.idle) as real * 100.0
    ensures 0.0 <= Percent(d) <= 100.0
  {
    if d.total > 0 {
      var t, busy := d.total as real, (d.total - d.idle) as real;
      QuotientTimes(busy, t);
      var p := Percent(d);
      assert p * t == busy * 100.0 && busy <= t;
      FractionInRange(p, busy, t);
    }
  }

  predicate Within(xs: seq<real>, lo: real, hi: real) {
    forall i | 0 <= i < |xs| :: lo <= xs[i] <= hi
  }

  function Percents(ds: seq<Delta>): seq<real> {
    seq(|ds|, i requires 0 <= i < |ds| => Percent(ds[i]))
  }

  /** `busy` hundredfold lies between lo and hi times `total`. */
  predicate Between(lo: real, busy: nat, total: nat, hi: real) {
    lo * total as real <= busy as real * 100.0 <= hi * total as real
  }

  lemma BetweenAdds(lo: real, hi: real, busy: nat, total: nat, b: nat, t: nat)
    requires Between(lo, busy, total, hi) && Between(lo, b, t, hi)
    ensures Between(lo, busy + b, total + t, hi)
  {
    assert lo * (total + t) as real == lo * total as real + lo * t as real;
    assert hi * (total + t) as real == hi * total as real + hi * t as real;
  }

  lemma CoreBetween(d: Delta, lo: real, hi: real)
    requires d.idle <= d.total && lo <= Percent(d) <= hi
    ensures Between(lo, d.total - d.idle, d.total, hi)
  {
    PercentInRange(d);
    assert lo * d.total as real <= Percent(d) * d.total as real <= hi * d.total as real;
  }

  /** The busy time of all cores lies between the extreme percentages of their total time. */
  lemma {:induction false} BusyBetween(ds: seq<Delta>, lo: real, hi: real)
    requires Sane(ds) && Within(Percents(ds), lo, hi)
    ensures Sum(ds, IdleOf) <= Sum(ds, TotalOf)
    ensures Between(lo, Sum(ds, TotalOf) - Sum(ds, IdleOf), Sum(ds, TotalOf), hi)
  {
    if ds != [] {
      var n := |ds| - 1;
      var d, rest := ds[n], ds[..n];
      assert Percents(rest) == Percents(ds)[..n] && Percents(ds)[n] == Percent(d);
      BusyBetween(rest, lo, hi);
      CoreBetween(d, lo, hi);
      BetweenAdds(lo, hi, Sum(rest, TotalOf) - Sum(rest, IdleOf), Sum(rest, TotalOf), d.total - d.idle, d.total);
    }
  }

  lemma CancelFactor(a: real, b: real, t: real)
    requires t > 0.0
    ensures a * t <= b * t ==> a <= b
  {
    if a > b { assert (a - b) * t > 0.0; }
  }

  lemma QuotientBetween(lo: real, hi: real, busy: nat, total: nat)
    requires total > 0 && Between(lo, busy, total, hi)
    ensures lo <= busy as real / total as real * 100.0 <= hi
  {
    var q := busy as real / total as real * 100.0;
    QuotientTimes(busy as real, total as real);
    CancelFactor(lo, q, total as real);
    CancelFactor(q, hi, total as real);
  }

  lemma {:induction false} FirstIsIdle(ds: seq<Delta>)
    requires ds != [] && Sum(ds, TotalOf) == 0
    ensures Percents(ds)[0] == 0.0
  {
    if |ds| > 1 { FirstIsIdle(ds[..|ds| - 1]); }
  }

  /** The delta that the wrapped sums show. */
  function Overall(ds: seq<Delta>): Delta {
    Delta(Wrap(Sum(ds, IdleOf)), Wrap(Sum(ds, TotalOf)))
  }

  /** The overall percentage lies between any bounds that hold for all the cores. */
  lemma OverallBetween(ds: seq<Delta>, lo: real, hi: real)
    requires ds != [] && Sane(ds) && Sum(ds, TotalOf) < M
    requires Within(Percents(ds), lo, hi)
    ensures lo <= Percent(Overall(ds)) <= hi
  {
    BusyBetween(ds, lo, hi);
    var i, t := Sum(ds, IdleOf), Sum(ds, TotalOf);
    assert Overall(ds) == Delta(i, t);
    if t > 0 {
      QuotientBetween(lo, hi, t - i, t);
    } else {
      FirstIsIdle(ds);
    }
  }

  // ---- When the sums wrap ----

  /** A percentage lies in 0..100 if and only if the idle time does not exceed a total time
      that is not zero. */
  lemma PercentInRangeIff(d: Delta)
    ensures 0.0 <= Percent(d) <= 100.0 <==> d.total == 0 || d.idle <= d.total
  {
    if d.idle <= d.total {
      PercentInRange(d);
    } else if d.total > 0 {
      var t, busy := d.total as real, Sub(d.total, d.idle) as real;
      QuotientTimes(busy, t);
      var p := Percent(d);
      assert p * t == busy * 100.0 && busy > t;
      FractionAboveOne(p, busy, t);
    }
  }

  lemma FractionAboveOne(p: real, busy: real, t: real)
    requires busy > t > 0.0 && p * t == busy * 100.0
    ensures p > 100.0
  {
    ScaleUp(p, 100.0, t);
  }

  lemma ScaleUp(a: real, b: real, t: real)
    requires t >= 0.0
    ensures a <= b ==> a * t <= b * t
  {
  }

  /** Without a bound on the sum of the totals the overall percentage can leave the range:
      two cores that are both almost idle give 200. */
  lemma OverallCanLeaveRange()
    ensures var ds := [Delta(M / 2, M / 2), Delta(M / 2 - 1, M / 2 + 1)];
      Sane(ds) && Percent(Overall(ds)) == 200.0
  {
    var d0, d1 := Delta(M / 2, M / 2), Delta(M / 2 - 1, M / 2 + 1);
    SumTwo(d0, d1, IdleOf);
    SumTwo(d0, d1, TotalOf);
    assert Sum([d0, d1], IdleOf) == M - 1 && Sum([d0, d1], TotalOf) == M + 1;
    assert Overall([d0, d1]) == Delta(M - 1, 1);
    assert Sub(1, M - 1) == 2;
  }

  lemma {:induction false} SumAtMost(ds: seq<Delta>, elapsed: nat)
    requires forall i | 0 <= i < |ds| :: ds[i].total <= elapsed
    ensures Sum(ds, TotalOf) <= |ds| * elapsed
  {
    if ds != [] {
      SumAtMost(ds[..|ds| - 1], elapsed);
      assert |ds| * elapsed == (|ds| - 1) * elapsed + elapsed;
    }
  }

  const MAX_CPU_CORES: nat := 256

  /** The sums do not wrap between snapshots less than 2^56 ticks of 100 ns apart: with at most
      256 cores, each running for no longer than that, the overall percentage is in range. */
  lemma OverallBetweenInTime(ds: seq<Delta>, elapsed: nat, lo: real, hi: real)
    requires ds != [] && |ds| <= MAX_CPU_CORES && Sane(ds) && elapsed < M / MAX_CPU_CORES
    requires forall i | 0 <= i < |ds| :: ds[i].total <= elapsed
    requires Within(Percents(ds), lo, hi)
    ensures lo <= Percent(Overall(ds)) <= hi
  {
    SumAtMost(ds, elapsed);
    MulMonotone(|ds|, MAX_CPU_CORES, elapsed);
    assert MAX_CPU_CORES * elapsed < M;
    OverallBetween(ds, lo, hi);
  }

  // ---- In terms of the counters ----

  /** What the two snapshots of a core say: time idle, and time in all. */
  function IdleTime(prev: Times, curr: Times): int {
    curr.idle - prev.idle
  }

  function TotalTime(prev: Times, curr: Times): int {
    (curr.kernel - prev.kernel) + (curr.user - prev.user)
  }

  /** The counters of the core did not wrap, and it was idle no longer than it ran. */
  predicate Steady(prev: Times, curr: Times) {
    && prev.idle <= curr.idle && prev.kernel <= curr.kernel && prev.user <= curr.user
    && IdleTime(prev, curr) <= TotalTime(prev, curr) < M
  }

  /** `p` is the busy part of `total`, in percent; nothing is 0 percent of nothing. */
  predicate IsBusyPercent(p: real, idle: int, total: int) {
    if total == 0 then p == 0.0 else p * total as real == (total - idle) as real * 100.0
  }

  function IdleSum(prev: seq<Times>, curr: seq<Times>): int
    requires |prev| == |curr|
  {
    if prev == [] then 0
    else IdleSum(prev[..|prev| - 1], curr[..|curr| - 1]) + IdleTime(prev[|prev| - 1], curr[|curr| - 1])
  }

  function TotalSum(prev: seq<Times>, curr: seq<Times>): int
    requires |prev| == |curr|
  {
    if prev == [] then 0
    else TotalSum(prev[..|prev| - 1], curr[..|curr| - 1]) + TotalTime(prev[|prev| - 1], curr[|curr| - 1])
  }

  /** The reported percentages are those of the counters: of every core that was steady, and
      overall if all were and their times sum below 2^64. */
  ghost predicate ReportsCounters(prev: seq<Times>, curr: seq<Times>, u: Usage)
    requires |prev| == |curr|
  {
    && |u.perCore| == |prev|
    && (forall i | 0 <= i < |prev| && Steady(prev[i], curr[i]) ::
          IsBusyPercent(u.perCore[i], IdleTime(prev[i], curr[i]), TotalTime(prev[i], curr[i])))
    && ((forall i | 0 <= i < |prev| :: Steady(prev[i], curr[i])) && TotalSum(prev, curr) < M ==>
          IsBusyPercent(u.overall, IdleSum(prev, curr), TotalSum(prev, curr)))
  }

  lemma SteadyDelta(prev: Times, curr: Times)
    requires Steady(prev, curr)
    ensures DeltaOf(prev, curr) == Delta(IdleTime(prev, curr), TotalTime(prev, curr))
  {
  }

  lemma {:induction false} SteadySums(prev: seq<Times>, curr: seq<Times>)
    requires |prev| == |curr| && forall i | 0 <= i < |prev| :: Steady(prev[i], curr[i])
    ensures Sum(Deltas(prev, curr), IdleOf) == IdleSum(prev, curr) <= TotalSum(prev, curr)
    ensures Sum(Deltas(prev, curr), TotalOf) == TotalSum(prev, curr)
  {
    if prev != [] {
      var n := |prev| - 1;
      SteadySums(prev[..n], curr[..n]);
      SteadyDelta(prev[n], curr[n]);
      assert Deltas(prev, curr) == Deltas(prev[..n], curr[..n]) + [DeltaOf(prev[n], curr[n])];
      SumAppend(Deltas(prev[..n], curr[..n]), IdleOf, DeltaOf(prev[n], curr[n]));
      SumAppend(Deltas(prev[..n], curr[..n]), TotalOf, DeltaOf(prev[n], curr[n]));
    }
  }

  lemma DeltaIsBusyPercent(d: Delta)
    requires d.idle <= d.total
    ensures IsBusyPercent(Percent(d), d.idle, d.total)
  {
    PercentInRange(d);
  }

  lemma CoreReportsCounters(prev: Times, curr: Times)
    requires Steady(prev, curr)
    ensures IsBusyPercent(Percent(DeltaOf(prev, curr)), IdleTime(prev, curr), TotalTime(prev, curr))
  {
    SteadyDelta(prev, curr);
    DeltaIsBusyPercent(DeltaOf(prev, curr));
  }

  lemma OverallReportsCounters(prev: seq<Times>, curr: seq<Times>)
    requires |prev| == |curr| && TotalSum(prev, curr) < M
    requires forall i | 0 <= i < |prev| :: Steady(prev[i], curr[i])
    ensures IsBusyPercent(Percent(Overall(Deltas(prev, curr))), IdleSum(prev, curr), TotalSum(prev, curr))
  {
    SteadySums(prev, curr);
    var d := Overall(Deltas(prev, curr));
    assert d == Delta(IdleSum(prev, curr), TotalSum(prev, curr));
    DeltaIsBusyPercent(d);
  }

  lemma UsageReportsCounters(prev: seq<Times>, curr: seq<Times>)
    requires |prev| == |curr|
    ensures ReportsCounters(prev, curr, Usage(Percents(Deltas(prev, curr)), Percent(Overall(Deltas(prev, curr)))))
  {
    var ps := Percents(Deltas(prev, curr));
    forall i | 0 <= i < |prev| && Steady(prev[i], curr[i])
      ensures IsBusyPercent(ps[i], IdleTime(prev[i], curr[i]), TotalTime(prev[i], curr[i]))
    {
      CoreReportsCounters(prev[i], curr[i]);
      assert ps[i] == Percent(DeltaOf(prev[i], curr[i]));
    }
    if (forall i | 0 <= i < |prev| :: Steady(prev[i], curr[i])) && TotalSum(prev, curr) < M {
      OverallReportsCounters(prev, curr);
    }
  }

  // ---- The collector ----

  datatype Usage = Usage(perCore: seq<real>, overall: real)

  /** The aggregation loop: per-core percentages, and the overall one from wrapped sums. */
  method Aggregate(prev: seq<Times>, curr: seq<Times>) returns (u: Usage)
    requires |prev| == |curr|
    ensures u == Usage(Percents(Deltas(prev, curr)), Percent(Overall(Deltas(prev, curr))))
    ensures ReportsCounters(prev, curr, u)
  {
    var perCore: seq<real> := [];
    var totalPrev, totalCurr := Times(0, 0, 0), Times(0, 0, 0);
    ghost var ds := Deltas(prev, curr);
    for i := 0 to |prev|
      invariant perCore == Percents(ds[..i])
      invariant DeltaOf(totalPrev, totalCurr) == Overall(ds[..i])
    {
      perCore := perCore + [Percent(DeltaOf(prev[i], curr[i]))];
      OverallNext(ds, i);
      DeltaOfPlus(totalPrev, prev[i], totalCurr, curr[i]);
      totalPrev := Plus(totalPrev, prev[i]);
      totalCurr := Plus(totalCurr, curr[i]);
    }
    assert ds[..|prev|] == ds;
    u := Usage(perCore, Percent(DeltaOf(totalPrev, totalCurr)));
    UsageReportsCounters(prev, curr);
  }

  lemma OverallNext(ds: seq<Delta>, i: nat)
    requires i < |ds|
    ensures Overall(ds[..i + 1]) == Delta(Add(Overall(ds[..i]).idle, ds[i].idle), Add(Overall(ds[..i]).total, ds[i].total))
    ensures Percents(ds[..i + 1]) == Percents(ds[..i]) + [Percent(ds[i])]
  {
    assert ds[..i + 1] == ds[..i] + [ds[i]];
    SumAppend(ds[..i], IdleOf, ds[i]);
    SumAppend(ds[..i], TotalOf, ds[i]);
    WrapNext(Sum(ds[..i], IdleOf), ds[i].idle);
    WrapNext(Sum(ds[..i], TotalOf), ds[i].total);
  }

  /** What a usage promises about sane counters: every core between 0 and 100, and the overall
      percentage between any two bounds that hold for all the cores. */
  ghost predicate Faithful(ds: seq<Delta>, u: Usage) {
    && |u.perCore| == |ds|
    && (Sane(ds) ==> Within(u.perCore, 0.0, 100.0))
    && (Sane(ds) && ds != [] && Sum(ds, TotalOf) < M ==>
          forall lo: real, hi: real | Within(u.perCore, lo, hi) :: lo <= u.overall <= hi)
  }

  lemma UsageIsFaithful(ds: seq<Delta>)
    ensures Faithful(ds, Usage(Percents(ds), Percent(Overall(ds))))
  {
    if Sane(ds) {
      forall i | 0 <= i < |ds| ensures 0.0 <= Percents(ds)[i] <= 100.0 {
        PercentInRange(ds[i]);
      }
      if ds != [] && Sum(ds, TotalOf) < M {
        forall lo: real, hi: real | Within(Percents(ds), lo, hi) ensures lo <= Percent(Overall(ds)) <= hi {
          OverallBetween(ds, lo, hi);
        }
      }
    }
  }

  class Collector {
    var prevCore: seq<Times>
    var prevValid: bool

    constructor ()
      ensures !prevValid
    {
      prevCore, prevValid := [], false;
    }

    /** One collection: usage only against an earlier snapshot with as many cores; the new
        snapshot always replaces it. */
    method Collect(curr: seq<Times>) returns (u: Option<Usage>)
      modifies this
      ensures prevValid && prevCore == curr
      ensures u.Some? <==> old(prevValid) && |curr| == |old(prevCore)|
      ensures u.Some? ==> Faithful(Deltas(old(prevCore), curr), u.value) && ReportsCounters(old(prevCore), curr, u.value)
    {
      u := None;
      if prevValid && |curr| == |prevCore| {
        var usage := Aggregate(prevCore, curr);
        UsageIsFaithful(Deltas(prevCore, curr));
        u := Some(usage);
      }
      prevCore := curr;
      prevValid := true;
    }
  }
}
