/**
 * The whole-country view of `global_store`: the windowed rows of every city
 * grouped by day, one output row per distinct day in ascending order, with
 * the mean of `tavg`, `wspd` and `pres` and the sum of `prcp` over that day's
 * rows (`groupby("time").agg(...).reset_index()`).
 */
module Aggregation {
  import opened Window

  datatype Column = Tavg | Wspd | Pres | Prcp

  function Value(r: Row, c: Column): real {
    match c
    case Tavg => r.tavg
    case Wspd => r.wspd
    case Pres => r.pres
    case Prcp => r.prcp
  }

  /** One output row of the grouped frame; it has no City column. */
  datatype DayAggregate = DayAggregate(time: int, tavg: real, wspd: real, pres: real, prcp: real)

  function Field(a: DayAggregate, c: Column): real {
    match c
    case Tavg => a.tavg
    case Wspd => a.wspd
    case Pres => a.pres
    case Prcp => a.prcp
  }

  /** Column total over a group of rows. */
  function Sum(g: seq<Row>, c: Column): real {
    if g == [] then 0.0 else Value(g[0], c) + Sum(g[1..], c)
  }

  /** `m` is the arithmetic mean of column `c` over the non-empty group `g`. */
  ghost predicate IsMean(m: real, g: seq<Row>, c: Column) {
    g != [] && m * |g| as real == Sum(g, c)
  }

  /** Arithmetic mean over a non-empty group. */
  function Mean(g: seq<Row>, c: Column): (m: real)
    requires g != []
    ensures IsMean(m, g, c)
  {
    Sum(g, c) / |g| as real
  }

  ghost predicate StrictlyIncreasing(days: seq<int>) {
    forall i, j :: 0 <= i < j < |days| ==> days[i] < days[j]
  }

  /** Inserts `day` into an ascending list of distinct days, unless it is there already. */
  function InsertDay(days: seq<int>, day: int): (r: seq<int>)
    requires StrictlyIncreasing(days)
    ensures StrictlyIncreasing(r)
    ensures forall d :: d in r <==> d in days || d == day
  {
    if days == [] then [day]
    else if day < days[0] then [day] + days
    else if day == days[0] then days
    else
      var rest := InsertDay(days[1..], day);
      assert forall k :: 0 <= k < |rest| ==> days[0] < rest[k] by {
        forall k | 0 <= k < |rest| ensures days[0] < rest[k] {
          assert rest[k] in rest;
          if rest[k] != day {
            var m :| 0 <= m < |days[1..]| && days[1..][m] == rest[k];
            assert days[m + 1] == rest[k];
          }
        }
      }
      [days[0]] + rest
  }

  /** The distinct days of a table in ascending order (the group keys, sorted as pandas sorts them). */
  function SortedDays(w: seq<Row>): (days: seq<int>)
    ensures StrictlyIncreasing(days)
    ensures forall d :: d in days <==> d in DaysOf(w)
  {
    if w == [] then [] else InsertDay(SortedDays(w[1..]), w[0].time)
  }

  /** The reduction of one day's rows. */
  function Aggregate(w: seq<Row>, day: int): (a: DayAggregate)
    requires day in DaysOf(w)
    ensures a.time == day
    ensures var g := Where(w, OnDay(day));
      g != [] &&
      a.prcp == Sum(g, Prcp) &&
      IsMean(a.tavg, g, Tavg) && IsMean(a.wspd, g, Wspd) && IsMean(a.pres, g, Pres)
  {
    var g := Where(w, OnDay(day));
    assert g != [] by {
      var i :| 0 <= i < |w| && w[i].time == day;
      assert w[i] in g;
    }
    DayAggregate(day, Mean(g, Tavg), Mean(g, Wspd), Mean(g, Pres), Sum(g, Prcp))
  }

  function GroupByDays(w: seq<Row>, days: seq<int>): (r: seq<DayAggregate>)
    requires forall d :: d in days ==> d in DaysOf(w)
    ensures |r| == |days|
    ensures forall i :: 0 <= i < |r| ==> r[i] == Aggregate(w, days[i])
  {
    if days == [] then [] else [Aggregate(w, days[0])] + GroupByDays(w, days[1..])
  }

  /**
   * One row per distinct day of `w`, ascending; each row holds that day's
   * precipitation total and the means of the other three columns.
   */
  function CountryAverage(w: seq<Row>): (r: seq<DayAggregate>)
    ensures forall i, j :: 0 <= i < j < |r| ==> r[i].time < r[j].time
    ensures forall d :: d in DaysOf(w) <==> exists i :: 0 <= i < |r| && r[i].time == d
    ensures forall i :: 0 <= i < |r| ==>
      var g := Where(w, OnDay(r[i].time));
      g != [] &&
      r[i].prcp == Sum(g, Prcp) &&
      IsMean(r[i].tavg, g, Tavg) && IsMean(r[i].wspd, g, Wspd) && IsMean(r[i].pres, g, Pres)
  {
    var days := SortedDays(w);
    var r := GroupByDays(w, days);
    assert forall i :: 0 <= i < |r| ==> r[i].time == days[i];
    assert forall i :: 0 <= i < |r| ==> r[i] == Aggregate(w, r[i].time);
    r
  }

  // ----- Precipitation is conserved by the grouping -----

  function TotalPrcp(r: seq<DayAggregate>): real {
    if r == [] then 0.0 else r[0].prcp + TotalPrcp(r[1..])
  }

  /** Sum over the listed days of the column total of that day's rows. */
  function SumByDays(w: seq<Row>, days: seq<int>, c: Column): real {
    if days == [] then 0.0 else Sum(Where(w, OnDay(days[0])), c) + SumByDays(w, days[1..], c)
  }

  lemma {:induction false} GroupedPrcpIsSumByDays(w: seq<Row>, days: seq<int>)
    requires forall d :: d in days ==> d in DaysOf(w)
    ensures TotalPrcp(GroupByDays(w, days)) == SumByDays(w, days, Prcp)
  {
    if days != [] {
      GroupedPrcpIsSumByDays(w, days[1..]);
      assert GroupByDays(w, days)[1..] == GroupByDays(w, days[1..]);
    }
  }

  /** Peeling the first row off the table moves its value out of the sum of the one day it belongs to. */
  lemma {:induction false} SumByDaysSplit(w: seq<Row>, days: seq<int>, c: Column)
    requires w != [] && StrictlyIncreasing(days)
    ensures SumByDays(w, days, c) ==
      (if w[0].time in days then Value(w[0], c) else 0.0) + SumByDays(w[1..], days, c)
  {
    if days != [] {
      SumByDaysSplit(w, days[1..], c);
      assert days == [days[0]] + days[1..];
      var g := Where(w, OnDay(days[0]));
      if w[0].time == days[0] {
        assert w[0].time !in days[1..];
        assert g[0] == w[0] && g[1..] == Where(w[1..], OnDay(days[0]));
      } else {
        assert g == Where(w[1..], OnDay(days[0]));
      }
    }
  }

  lemma {:induction false} SumByAllDays(w: seq<Row>, days: seq<int>, c: Column)
    requires StrictlyIncreasing(days)
    requires forall d :: d in DaysOf(w) ==> d in days
    ensures SumByDays(w, days, c) == Sum(w, c)
  {
    if w == [] {
      SumByDaysEmpty(days, c);
    } else {
      assert w[0].time in DaysOf(w);
      SumByDaysSplit(w, days, c);
      forall d | d in DaysOf(w[1..]) ensures d in days {
        var i :| 0 <= i < |w[1..]| && w[1..][i].time == d;
        assert w[i + 1].time == d;
      }
      SumByAllDays(w[1..], days, c);
    }
  }

  lemma {:induction false} SumByDaysEmpty(days: seq<int>, c: Column)
    ensures SumByDays([], days, c) == 0.0
  {
    if days != [] {
      SumByDaysEmpty(days[1..], c);
    }
  }

  /** The day totals of precipitation add up to the total precipitation of the window. */
  lemma CountryAveragePrcpTotal(w: seq<Row>)
    ensures TotalPrcp(CountryAverage(w)) == Sum(w, Prcp)
  {
    var days := SortedDays(w);
    GroupedPrcpIsSumByDays(w, days);
    SumByAllDays(w, days, Prcp);
  }

  // ----- A mean lies between the smallest and the largest value it averages -----

  lemma {:induction false} SumAtLeast(g: seq<Row>, c: Column, low: real)
    requires forall i :: 0 <= i < |g| ==> low <= Value(g[i], c)
    ensures low * |g| as real <= Sum(g, c)
  {
    if g != [] {
      SumAtLeast(g[1..], c, low);
    }
  }

  lemma {:induction false} SumAtMost(g: seq<Row>, c: Column, high: real)
    requires forall i :: 0 <= i < |g| ==> Value(g[i], c) <= high
    ensures Sum(g, c) <= high * |g| as real
  {
    if g != [] {
      SumAtMost(g[1..], c, high);
    }
  }

  lemma QuotientBetween(total: real, n: real, low: real, high: real)
    requires n > 0.0 && low * n <= total <= high * n
    ensures low <= total / n <= high
  {
  }

  lemma MeanBetweenExtremes(g: seq<Row>, c: Column)
    requires g != []
    ensures exists i :: 0 <= i < |g| && Value(g[i], c) <= Mean(g, c)
    ensures exists i :: 0 <= i < |g| && Mean(g, c) <= Value(g[i], c)
  {
    var lo, hi := 0, 0;
    for k := 1 to |g|
      invariant 0 <= lo < |g| && 0 <= hi < |g|
      invariant forall i :: 0 <= i < k ==> Value(g[lo], c) <= Value(g[i], c) <= Value(g[hi], c)
    {
      if Value(g[k], c) < Value(g[lo], c) { lo := k; }
      if Value(g[hi], c) < Value(g[k], c) { hi := k; }
    }
    SumAtLeast(g, c, Value(g[lo], c));
    SumAtMost(g, c, Value(g[hi], c));
    QuotientBetween(Sum(g, c), |g| as real, Value(g[lo], c), Value(g[hi], c));
  }

  /**
   * Each averaged column of the country view lies between the smallest and the
   * largest value reported by some city on that day.
   */
  lemma CountryAverageWithinRange(w: seq<Row>, i: int, c: Column)
    requires 0 <= i < |CountryAverage(w)| && c != Prcp
    ensures exists x :: x in w && x.time == CountryAverage(w)[i].time && Value(x, c) <= Field(CountryAverage(w)[i], c)
    ensures exists y :: y in w && y.time == CountryAverage(w)[i].time && Field(CountryAverage(w)[i], c) <= Value(y, c)
  {
    var a := CountryAverage(w)[i];
    var g := Where(w, OnDay(a.time));
    assert a == Aggregate(w, a.time);
    MeanBetweenExtremes(g, c);
    var lo :| 0 <= lo < |g| && Value(g[lo], c) <= Mean(g, c);
    var hi :| 0 <= hi < |g| && Mean(g, c) <= Value(g[hi], c);
    assert g[lo] in g && g[hi] in g;
  }

  /** Two cities reporting on the same day: temperatures 10 and 20 average to 15, precipitation 2 and 3 adds up to 5. */
  lemma TwoCitiesOneDay()
    ensures CountryAverage([Row("Poznań", 7, 10.0, 4.0, 1000.0, 2.0), Row("Kraków", 7, 20.0, 6.0, 1010.0, 3.0)])
      == [DayAggregate(7, 15.0, 5.0, 1005.0, 5.0)]
  {
    var w := [Row("Poznań", 7, 10.0, 4.0, 1000.0, 2.0), Row("Kraków", 7, 20.0, 6.0, 1010.0, 3.0)];
    assert Where(w, OnDay(7)) == w;
    assert SortedDays(w) == [7];
  }
}
