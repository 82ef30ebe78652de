/**
 * `global_store(city, days)`: the dashboard's dispatch on the city selector,
 * the memoisation around it, and `compute_value`, which packages the two UI
 * inputs into the key the charts are drawn from. The combined table, a module
 * global loaded once at start-up, is an explicit parameter here.
 */
module Store {
  import opened Window
  import opened Aggregation

  /** Dropdown entry: every city, one series each. */
  const AllCities: string := "Wszystkie"
  /** Dropdown entry: the per-day average over the whole country. */
  const WholeCountry: string := "Cała Polska"

  /** Either observation rows (one city or all of them) or the per-day country aggregate. */
  datatype StoreResult = Rows(rows: seq<Row>) | Daily(aggregates: seq<DayAggregate>)

  /** The selector names one city: truthy and not one of the two special entries. */
  predicate NamesOneCity(city: Option<string>) {
    Truthy(city) && city.value != AllCities && city.value != WholeCountry
  }

  function GlobalStore(t: seq<Row>, city: Option<string>, days: int): (r: StoreResult)
    ensures r.Daily? <==> city == Some(WholeCountry)
    ensures r.Rows? ==> IsSubsequence(r.rows, t)
    ensures r.Rows? ==> forall x :: x in r.rows <==>
      t != [] && x in t && x.time >= MaxTime(t) - days && (NamesOneCity(city) ==> x.city == city.value)
    ensures r.Daily? ==> r.aggregates == CountryAverage(FilterCityDays(t, None, days))
    ensures r.Rows? ==> r.rows == FilterCityDays(t, if NamesOneCity(city) then city else None, days)
  {
    if city == Some(AllCities) then
      FilterIsSubsequence(t, None, days);
      Rows(FilterCityDays(t, None, days))
    else if city == Some(WholeCountry) then
      Daily(CountryAverage(FilterCityDays(t, None, days)))
    else
      FilterIsSubsequence(t, city, days);
      Rows(FilterCityDays(t, city, days))
  }

  /** A city name that matches no row yields an empty frame, not an error. */
  lemma UnknownCityIsEmpty(t: seq<Row>, name: string, days: int)
    requires name != "" && name != AllCities && name != WholeCountry
    requires forall i :: 0 <= i < |t| ==> t[i].city != name
    ensures GlobalStore(t, Some(name), days) == Rows([])
  {
  }

  /** A cleared dropdown (`None`) and an empty name both behave like "Wszystkie". */
  lemma FalsySelectorShowsAllCities(t: seq<Row>, days: int)
    ensures GlobalStore(t, None, days) == GlobalStore(t, Some(""), days) == GlobalStore(t, Some(AllCities), days)
  {
  }

  /**
   * For one city, with at most one row per (City, time) in the table, the
   * result is that city's rows of the last `days + 1` days, at most one per day.
   */
  lemma OneCityStore(t: seq<Row>, city: Option<string>, days: int)
    requires NamesOneCity(city) && UniqueCityDays(t)
    ensures GlobalStore(t, city, days).Rows?
    ensures forall x :: x in GlobalStore(t, city, days).rows ==> x.city == city.value
    ensures UniqueCityDays(GlobalStore(t, city, days).rows)
    ensures |GlobalStore(t, city, days).rows| <= if days >= 0 then days + 1 else 0
  {
    FilterKeepsUnique(t, city, days);
    SingleCityWindowSize(t, city, days);
  }

  /** The country view has one row per day of the window, ascending, and loses no precipitation. */
  lemma WholeCountryStore(t: seq<Row>, days: int)
    ensures var r := GlobalStore(t, Some(WholeCountry), days);
      var window := FilterCityDays(t, None, days);
      r.Daily? &&
      (forall i, j :: 0 <= i < j < |r.aggregates| ==> r.aggregates[i].time < r.aggregates[j].time) &&
      (forall d :: d in DaysOf(window) <==> exists i :: 0 <= i < |r.aggregates| && r.aggregates[i].time == d) &&
      TotalPrcp(r.aggregates) == Sum(window, Prcp)
  {
    CountryAveragePrcpTotal(FilterCityDays(t, None, days));
  }

  // ----- compute_value and the memoisation of global_store -----

  /** The dcc.Store payload `{"City": ..., "Days": ...}`; also the memoisation key. */
  datatype Signal = Signal(city: Option<string>, days: int)

  function ComputeValue(selectedCity: Option<string>, daysRange: int): (s: Signal)
    ensures s.city == selectedCity && s.days == daysRange
  {
    Signal(selectedCity, daysRange)
  }

  /** Two payloads are the same cache key exactly when both inputs agree. */
  lemma ComputeValueKeys(c1: Option<string>, d1: int, c2: Option<string>, d2: int)
    ensures ComputeValue(c1, d1) == ComputeValue(c2, d2) <==> c1 == c2 && d1 == d2
  {
  }

  type Cache = map<Signal, StoreResult>

  /** Every cached entry is what `global_store` computes for its key on table `t`. */
  ghost predicate Coherent(cache: Cache, t: seq<Row>) {
    forall k :: k in cache ==> cache[k] == GlobalStore(t, k.city, k.days)
  }

  /** Look the key up; on a miss compute `global_store` and remember it. */
  function Memoized(cache: Cache, t: seq<Row>, key: Signal): (out: (StoreResult, Cache))
    ensures key in out.1 && out.1[key] == out.0
    ensures forall k :: k in cache ==> k in out.1 && out.1[k] == cache[k]
    ensures forall k :: k in out.1 ==> k in cache || k == key
    ensures key in cache ==> out.0 == cache[key]
    ensures key !in cache ==> out.0 == GlobalStore(t, key.city, key.days)
    ensures Coherent(cache, t) ==> Coherent(out.1, t) && out.0 == GlobalStore(t, key.city, key.days)
  {
    if key in cache then (cache[key], cache)
    else
      var v := GlobalStore(t, key.city, key.days);
      (v, cache[key := v])
  }

  /**
   * Asking twice gives the same answer, and the second request is a hit that
   * changes nothing; this holds on any cache, stale entries included.
   */
  lemma MemoizedTwice(cache: Cache, t: seq<Row>, key: Signal)
    ensures var (first, after) := Memoized(cache, t, key);
      Memoized(after, t, key) == (first, after)
  {
  }
}
