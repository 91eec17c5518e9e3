/** Rolling-window statistics over the store (src/use-cases/get-statistic.ts).
    The computation is a pure chain of filter, map, reduce, min and max over
    the store's `transactions`; the use-case class only reads the store. */
module GetStatistic {
  import opened Types
  import Env
  import opened TransactionServices

  /** `{ count, sum, avg, min, max }`. */
  datatype StatisticsResponse = StatisticsResponse(count: nat, sum: real, avg: real, min: real, max: real)

  /** The answer when no transaction lies in the window. */
  const ZeroStatistics := StatisticsResponse(0, 0.0, 0.0, 0.0, 0.0)

  /** `timeWindowInSeconds ?? env.STATISTICS_TIME_WINDOW_SECONDS`. */
  function ResolveWindow(timeWindowInSeconds: Option<int>): (w: int)
    ensures timeWindowInSeconds == None ==> w == 60
    ensures timeWindowInSeconds.Some? ==> w == timeWindowInSeconds.value
  {
    timeWindowInSeconds.GetOr(Env.STATISTICS_TIME_WINDOW_SECONDS)
  }

  /** Oldest instant still inside a window of `timeWindow` seconds ending at `now` (ms). */
  function Threshold(timeWindow: int, now: int): (t: int)
    ensures t <= now <==> timeWindow >= 0
  {
    now - timeWindow * 1000
  }

  /** The filter's predicate: a timestamp and a non-null value are present and
      the timestamp lies in the closed interval [threshold, now]. */
  predicate InWindow(t: Transaction, threshold: int, now: int)
    ensures InWindow(t, threshold, now) ==> threshold <= now && t.value.Some?
  {
    t.dateHour.Some? && t.value.Some? && threshold <= t.dateHour.value <= now
  }

  /** `transactions.filter(...)`: the in-window transactions, in store order. */
  function RecentTransactions(ts: seq<Transaction>, threshold: int, now: int): (r: seq<Transaction>)
    ensures |r| <= |ts|
    ensures forall i :: 0 <= i < |r| ==> InWindow(r[i], threshold, now)
  {
    if ts == [] then []
    else (if InWindow(ts[0], threshold, now) then [ts[0]] else []) + RecentTransactions(ts[1..], threshold, now)
  }

  /** `.map(t => t.value).filter(v => v !== null)`. */
  function Values(ts: seq<Transaction>): (vs: seq<real>)
    ensures |vs| <= |ts|
  {
    if ts == [] then []
    else (if ts[0].value.Some? then [ts[0].value.value] else []) + Values(ts[1..])
  }

  /** `values.reduce((acc, val) => acc + val, 0)`, a left fold. */
  function Sum(vs: seq<real>): (r: real)
    ensures |vs| == 1 ==> r == vs[0]
  {
    if vs == [] then 0.0 else Sum(vs[..|vs| - 1]) + vs[|vs| - 1]
  }

  /** `Math.min(...values)` on a non-empty list. */
  function MinOf(vs: seq<real>): (m: real)
    requires vs != []
    ensures m in vs
    ensures forall i :: 0 <= i < |vs| ==> m <= vs[i]
  {
    if |vs| == 1 then vs[0]
    else
      var rest := MinOf(vs[1..]);
      if vs[0] <= rest then vs[0] else rest
  }

  /** `Math.max(...values)` on a non-empty list. */
  function MaxOf(vs: seq<real>): (m: real)
    requires vs != []
    ensures m in vs
    ensures forall i :: 0 <= i < |vs| ==> vs[i] <= m
  {
    if |vs| == 1 then vs[0]
    else
      var rest := MaxOf(vs[1..]);
      if vs[0] >= rest then vs[0] else rest
  }

  /** The statistics of `transactions` for a resolved window (seconds) and a
      clock reading `now` (ms). */
  function Statistics(transactions: seq<Transaction>, timeWindow: int, now: int): (r: StatisticsResponse)
    ensures r.count == |RecentTransactions(transactions, Threshold(timeWindow, now), now)|
    ensures r.count == 0 ==> r == ZeroStatistics
  {
    var timeThreshold := Threshold(timeWindow, now);
    var recentTransactions := RecentTransactions(transactions, timeThreshold, now);
    if |recentTransactions| == 0 then ZeroStatistics
    else
      var values := Values(recentTransactions);
      AllValuesPresent(recentTransactions, timeThreshold, now);
      var count := |values|;
      var sum := Sum(values);
      StatisticsResponse(count, sum, sum / count as real, MinOf(values), MaxOf(values))
  }

  // ---------------------------------------------------------------------
  // Lemmas about the filter

  /** Every in-window transaction carries a value, so the second filter drops
      nothing: there is one value per recent transaction, in order. */
  lemma {:induction false} AllValuesPresent(ts: seq<Transaction>, threshold: int, now: int)
    requires forall i :: 0 <= i < |ts| ==> InWindow(ts[i], threshold, now)
    ensures |Values(ts)| == |ts|
    ensures forall i :: 0 <= i < |ts| ==> ts[i].value == Some(Values(ts)[i])
  {
    if ts != [] {
      AllValuesPresent(ts[1..], threshold, now);
    }
  }

  /** When every transaction is in the window, the filter keeps them all. */
  lemma {:induction false} KeepsAllInWindow(ts: seq<Transaction>, threshold: int, now: int)
    requires forall i :: 0 <= i < |ts| ==> InWindow(ts[i], threshold, now)
    ensures RecentTransactions(ts, threshold, now) == ts
  {
    if ts != [] {
      KeepsAllInWindow(ts[1..], threshold, now);
      assert ts == [ts[0]] + ts[1..];
    }
  }

  /** Window membership: a transaction is kept iff it is stored and in the window. */
  lemma {:induction false} RecentMembership(ts: seq<Transaction>, threshold: int, now: int, t: Transaction)
    ensures t in RecentTransactions(ts, threshold, now) <==> t in ts && InWindow(t, threshold, now)
  {
    if ts != [] {
      RecentMembership(ts[1..], threshold, now, t);
      assert ts == [ts[0]] + ts[1..];
    }
  }

  /** The filter distributes over concatenation, so it keeps exactly the
      in-window records, each once, in their store order. */
  lemma {:induction false} RecentAppend(a: seq<Transaction>, b: seq<Transaction>, threshold: int, now: int)
    ensures RecentTransactions(a + b, threshold, now) ==
            RecentTransactions(a, threshold, now) + RecentTransactions(b, threshold, now)
  {
    if a == [] {
      assert a + b == b;
    } else {
      assert (a + b)[1..] == a[1..] + b;
      RecentAppend(a[1..], b, threshold, now);
    }
  }

  // ---------------------------------------------------------------------
  // Lemmas about the fold

  /** The sum of a concatenation is the sum of the parts. */
  lemma {:induction false} SumAppend(a: seq<real>, b: seq<real>)
    ensures Sum(a + b) == Sum(a) + Sum(b)
  {
    if b == [] {
      assert a + b == a;
    } else {
      assert (a + b)[..|a + b| - 1] == a + b[..|b| - 1];
      SumAppend(a, b[..|b| - 1]);
    }
  }

  /** A sum of values in [lo, hi] lies between n*lo and n*hi. */
  lemma {:induction false} SumBounds(vs: seq<real>, lo: real, hi: real)
    requires forall i :: 0 <= i < |vs| ==> lo <= vs[i] <= hi
    ensures |vs| as real * lo <= Sum(vs) <= |vs| as real * hi
  {
    if vs != [] {
      var init, last := vs[..|vs| - 1], vs[|vs| - 1];
      SumBounds(init, lo, hi);
      BoundsStep(|init| as real, Sum(init), last, lo, hi);
      assert Sum(vs) == Sum(init) + last;
      assert |vs| as real == |init| as real + 1.0;
    }
  }

  /** Adding one value in [lo, hi] to a total of m values in [m*lo, m*hi]. */
  lemma BoundsStep(m: real, total: real, x: real, lo: real, hi: real)
    requires m * lo <= total <= m * hi && lo <= x <= hi
    ensures (m + 1.0) * lo <= total + x <= (m + 1.0) * hi
  {
  }

  // ---------------------------------------------------------------------
  // Properties of the statistics

  /** Nothing in the window iff the count is zero, and then every field is zero. */
  lemma EmptyWindow(transactions: seq<Transaction>, timeWindow: int, now: int)
    ensures (forall t :: t in transactions ==> !InWindow(t, Threshold(timeWindow, now), now))
            <==> Statistics(transactions, timeWindow, now).count == 0
    ensures (forall t :: t in transactions ==> !InWindow(t, Threshold(timeWindow, now), now))
            ==> Statistics(transactions, timeWindow, now) == ZeroStatistics
  {
    var threshold := Threshold(timeWindow, now);
    var recent := RecentTransactions(transactions, threshold, now);
    if |recent| > 0 {
      RecentMembership(transactions, threshold, now, recent[0]);
    } else {
      forall t | t in transactions
        ensures !InWindow(t, threshold, now)
      {
        RecentMembership(transactions, threshold, now, t);
      }
    }
  }

  /** With something in the window, `sum` is the sum of the in-window
      values (in store order) and `avg = sum / count`. */
  lemma NonEmptySumAndAverage(transactions: seq<Transaction>, timeWindow: int, now: int)
    requires Statistics(transactions, timeWindow, now).count > 0
    ensures var r := Statistics(transactions, timeWindow, now);
            && r.sum == Sum(Values(RecentTransactions(transactions, Threshold(timeWindow, now), now)))
            && r.avg == r.sum / r.count as real
  {
    var threshold := Threshold(timeWindow, now);
    AllValuesPresent(RecentTransactions(transactions, threshold, now), threshold, now);
  }

  /** With something in the window, `min` and `max` are values of in-window
      transactions, and they bound the value of every in-window transaction. */
  lemma NonEmptyExtremes(transactions: seq<Transaction>, timeWindow: int, now: int)
    requires Statistics(transactions, timeWindow, now).count > 0
    ensures var r := Statistics(transactions, timeWindow, now);
            && (exists t :: t in transactions && InWindow(t, Threshold(timeWindow, now), now) && t.value == Some(r.min))
            && (exists t :: t in transactions && InWindow(t, Threshold(timeWindow, now), now) && t.value == Some(r.max))
            && (forall t :: t in transactions && InWindow(t, Threshold(timeWindow, now), now) ==>
                  r.min <= t.value.value <= r.max)
  {
    var r := Statistics(transactions, timeWindow, now);
    var threshold := Threshold(timeWindow, now);
    var recent := RecentTransactions(transactions, threshold, now);
    AllValuesPresent(recent, threshold, now);
    var values := Values(recent);
    assert r.min == MinOf(values) && r.max == MaxOf(values);
    var i :| 0 <= i < |values| && values[i] == r.min;
    var j :| 0 <= j < |values| && values[j] == r.max;
    RecentMembership(transactions, threshold, now, recent[i]);
    RecentMembership(transactions, threshold, now, recent[j]);
    forall t | t in transactions && InWindow(t, threshold, now)
      ensures r.min <= t.value.value <= r.max
    {
      RecentMembership(transactions, threshold, now, t);
      var k :| 0 <= k < |recent| && recent[k] == t;
      assert t.value == Some(values[k]);
    }
  }

  /** With something in the window, min <= avg <= max. */
  lemma NonEmptyAverageBetweenExtremes(transactions: seq<Transaction>, timeWindow: int, now: int)
    requires Statistics(transactions, timeWindow, now).count > 0
    ensures var r := Statistics(transactions, timeWindow, now); r.min <= r.avg <= r.max
  {
    var r := Statistics(transactions, timeWindow, now);
    var threshold := Threshold(timeWindow, now);
    var recent := RecentTransactions(transactions, threshold, now);
    AllValuesPresent(recent, threshold, now);
    var values := Values(recent);
    NonEmptySumAndAverage(transactions, timeWindow, now);
    assert r.min == MinOf(values) && r.max == MaxOf(values) && r.count == |values|;
    AverageBounds(values, r.min, r.max);
  }

  /** The average of a non-empty list of values in [lo, hi] is in [lo, hi]. */
  lemma AverageBounds(values: seq<real>, lo: real, hi: real)
    requires values != []
    requires forall i :: 0 <= i < |values| ==> lo <= values[i] <= hi
    ensures lo <= Sum(values) / |values| as real <= hi
  {
    SumBounds(values, lo, hi);
    AverageBetween(Sum(values), |values| as real, lo, hi);
  }

  /** A total between n*lo and n*hi has its average between lo and hi. */
  lemma AverageBetween(s: real, n: real, lo: real, hi: real)
    requires n > 0.0 && n * lo <= s <= n * hi
    ensures lo <= s / n <= hi
  {
  }

  /** With no window argument the default of 60 seconds applies. */
  lemma DefaultWindow(transactions: seq<Transaction>, now: int)
    ensures Statistics(transactions, ResolveWindow(None), now) == Statistics(transactions, 60, now)
  {
  }

  /** A single transaction of 100 that is 90 seconds old is outside the
      default window and inside a 120-second one. */
  lemma NinetySecondsOld(now: int)
    ensures Statistics([Transaction(0, Some(100.0), Some(now - 90 * 1000))], ResolveWindow(None), now) == ZeroStatistics
    ensures Statistics([Transaction(0, Some(100.0), Some(now - 90 * 1000))], ResolveWindow(Some(120)), now)
            == StatisticsResponse(1, 100.0, 100.0, 100.0, 100.0)
  {
    var ts := [Transaction(0, Some(100.0), Some(now - 90 * 1000))];
    assert RecentTransactions(ts, Threshold(60, now), now) == [];
    var recent := RecentTransactions(ts, Threshold(120, now), now);
    assert recent == ts;
    assert Values(recent) == [100.0];
    assert Sum([100.0]) == 100.0 by {
      assert [100.0][..0] == [];
    }
  }

  /** Values 10, 20 and 30 stored 30 s ago, 10 s ago and now give
      {3, 60, 20, 10, 30} with the default window, whatever their ids. */
  lemma ThreeRecent(a: nat, b: nat, c: nat, now: int)
    ensures Statistics([Transaction(a, Some(10.0), Some(now - 30 * 1000)),
                        Transaction(b, Some(20.0), Some(now - 10 * 1000)),
                        Transaction(c, Some(30.0), Some(now))], ResolveWindow(None), now)
            == StatisticsResponse(3, 60.0, 20.0, 10.0, 30.0)
  {
    var ts := [Transaction(a, Some(10.0), Some(now - 30 * 1000)),
               Transaction(b, Some(20.0), Some(now - 10 * 1000)),
               Transaction(c, Some(30.0), Some(now))];
    var threshold := Threshold(60, now);
    KeepsAllInWindow(ts, threshold, now);
    AllValuesPresent(ts, threshold, now);
    var vs := [10.0, 20.0, 30.0];
    assert Values(ts) == vs;
    assert Statistics(ts, 60, now) == StatisticsResponse(3, Sum(vs), Sum(vs) / 3.0, MinOf(vs), MaxOf(vs));
    TenTwentyThirty();
  }

  /** The fold, minimum and maximum of the values 10, 20, 30. */
  lemma TenTwentyThirty()
    ensures Sum([10.0, 20.0, 30.0]) == 60.0
    ensures MinOf([10.0, 20.0, 30.0]) == 10.0 && MaxOf([10.0, 20.0, 30.0]) == 30.0
  {
    var vs := [10.0, 20.0, 30.0];
    assert vs[..2][..1] == [10.0] && [10.0][..0] == [];
    assert MinOf(vs[1..]) == 20.0;
    assert MaxOf(vs[1..]) == 30.0;
  }

  class StatisticsUsecase {
    const transactionService: TransactionService

    constructor (transactionService: TransactionService)
      ensures this.transactionService == transactionService
    {
      this.transactionService := transactionService;
    }

    /** Resolves the window and computes the statistics of the current
        store at the clock reading `now`. It has no modifies clause: the
        store is only read. */
    method GetStatistics(timeWindowInSeconds: Option<int>, now: int) returns (r: StatisticsResponse)
      ensures r == Statistics(transactionService.transactions, ResolveWindow(timeWindowInSeconds), now)
      ensures r.count == |RecentTransactions(transactionService.transactions,
                                             Threshold(ResolveWindow(timeWindowInSeconds), now), now)|
    {
      var timeWindow := ResolveWindow(timeWindowInSeconds);
      r := Statistics(transactionService.transactions, timeWindow, now);
    }
  }
}
