# Weather dashboard: trailing-window selection and country aggregation

This project models the data-shaping core of a small weather dashboard for
17 Polish cities. The dashboard loads one combined table of daily observations
(`City`, `time`, `tavg`, `wspd`, `pres`, `prcp`) at start-up. Every chart is
then drawn from `global_store(city, days)`:

- `filter_city_days` keeps the rows whose day is no earlier than
  `days` days before the latest day in the table. Both ends are inclusive.
  When the city argument is truthy, it also keeps only that city's rows.
- `global_store` dispatches on the dropdown value:
  - `"Wszystkie"` gives the window for every city, unaggregated.
  - `"Cała Polska"` gives the window grouped by day: the mean of `tavg`,
    `wspd` and `pres`, the sum of `prcp`, one row per day in ascending order.
  - Anything else is used as a city name.
- `compute_value` packages the dropdown and slider values as
  `{"City": ..., "Days": ...}`.
- `global_store` is memoised on its arguments.

Files:

- `window.dfy` (module `Window`): a row, the mask selection `df[mask]`
  (`Where`), `MaxTime`, `FilterCityDays` and its lemmas.
- `country_average.dfy` (module `Aggregation`): the per-day group-by
  reduction (`CountryAverage`) and its lemmas.
- `store.dfy` (module `Store`): `GlobalStore`, `ComputeValue` and a pure
  model of the memoisation (`Memoized`, with a cache-coherence invariant).

Modelling choices:

- A day is an integer day number. The loader's rows are midnight timestamps,
  so `max_date - pd.Timedelta(days=days)` is integer subtraction.
- Measurements are `real`. A mean is stated as "mean × group size = group
  sum" (`IsMean`).
- The table is a `seq<Row>` in the loader's order. A mask selection keeps
  matching rows in order and unchanged, which is what pandas boolean indexing
  does.
- The `city` argument is an `Option<string>`. Python's `if city:` is
  `Truthy`, which is false for both `None` and `""`. The dropdown can be
  cleared, so `global_store` can also receive `None`.
- The combined table is a module-level global in the source. Here it is an
  explicit parameter `t`.

Three edge cases follow the code, even though a stricter design would reject them:

- A name that is neither a city nor a special entry gets an empty frame, not
  an error such as `UnknownCitySelector`. `Store.UnknownCityIsEmpty` states
  this.
- An empty table gets an empty frame, not an error. In the code, `max()` of
  an empty column is NaT and no comparison with NaT holds. `FilterCityDays`
  returns `[]` for an empty table and has no precondition.
- `global_store("")` and `global_store(None)` both behave like
  `"Wszystkie"`: the name is falsy, so no city restriction applies.
  `Store.FalsySelectorShowsAllCities` states this.

## Model

| member | source | states |
|---|---|---|
| Window.MaxTime | src/app.py:399 | the result is at least every row's day and is the day of some row |
| Window.Where | src/app.py:401 | boolean-mask selection: a row is in the result iff it is in the table and the mask holds of it; the result is no longer than the table |
| Window.WhereIsSubsequence | src/app.py:401 | a mask selection is the table with rows deleted, in the original order and unchanged |
| Window.WhereMultiplicity | src/app.py:401 | every row occurs in a mask selection exactly as often as in the table when the mask holds, and not at all otherwise |
| Window.FilterCityDays | src/app.py:390-406 | a row is returned iff it is in the non-empty table, its day is >= max day - days (inclusive), and, when the city argument is truthy, its City equals it; an empty table gives an empty result |
| Window.FilterIsSubsequence | src/app.py:399-406 | the result is a subsequence of the input: no row invented or altered, original order kept |
| Window.FilterMultiplicity | src/app.py:399-404 | completeness: each qualifying row is kept as many times as it occurs in the input; every other row occurs zero times |
| Window.FilterWholeSpan | src/app.py:399-404 | when days >= max day - min day the whole table is returned, or, for a truthy city, that city's whole history |
| Window.FilterMonotoneInDays | src/app.py:400-404 | increasing days never removes a row: the shorter window's result is a subsequence of the longer one's |
| Window.FilterKeepsUnique | src/app.py:399-404 | if the table has at most one row per (City, time), so does the result |
| Window.SingleCityWindowSize | src/app.py:399-404 | for a truthy city and a table with unique (City, time) pairs the result has at most days + 1 rows (none when days < 0) |
| Aggregation.Mean | src/app.py:214 | the mean times the group size is the group's column sum |
| Aggregation.InsertDay | src/app.py:213 | inserting a day keeps the key list strictly ascending; its members are the old ones plus the new day |
| Aggregation.SortedDays | src/app.py:213 | the group keys are strictly ascending and are exactly the days present in the window |
| Aggregation.Aggregate | src/app.py:213-214 | a day's output row carries that day; its prcp is the sum and its tavg, wspd and pres are the means over that day's (non-empty) rows |
| Aggregation.CountryAverage | src/app.py:210-216 | one output row per distinct day of the window, strictly ascending by day; prcp is that day's sum and tavg, wspd, pres are that day's means |
| Aggregation.CountryAveragePrcpTotal | src/app.py:214 | the day totals of prcp add up to the total prcp of the window |
| Aggregation.MeanBetweenExtremes | src/app.py:214 | a mean lies between the smallest and the largest value it averages |
| Aggregation.CountryAverageWithinRange | src/app.py:210-216 | each averaged column of a day's output lies between the smallest and the largest value some city reported that day |
| Aggregation.TwoCitiesOneDay | src/app.py:210-216 | temperatures 10 and 20 on one day average to 15, and precipitation 2 and 3 adds up to 5 |
| Store.GlobalStore | src/app.py:199-218 | the aggregate form is returned iff the selector is "Cała Polska" (then it is the country view of the all-city window); otherwise the rows are exactly filter_city_days of the table with the selector as city when it names one city and with no city for "Wszystkie", None or "" (so a subsequence of the table, inside the window, city-restricted only for a city name) |
| Store.UnknownCityIsEmpty | src/app.py:208-218 | a non-empty name that is neither special entry and matches no row gives an empty frame, not an error |
| Store.FalsySelectorShowsAllCities | src/app.py:208-218 | a cleared selector (None) and "" give the same result as "Wszystkie" |
| Store.OneCityStore | src/app.py:218 | for a city name on a table with unique (City, time) pairs the result holds only that city's rows, is itself unique per (City, time) and has at most days + 1 rows |
| Store.WholeCountryStore | src/app.py:210-216 | "Cała Polska" gives one row per day of the window, ascending, whose prcp totals add up to the window's total prcp |
| Store.ComputeValue | src/app.py:379-387 | the payload carries the selected city and days unchanged |
| Store.ComputeValueKeys | src/app.py:379-387 | two payloads are equal exactly when both their cities and their days are equal |
| Store.Memoized | src/app.py:199 | a hit returns the cached entry as stored (even if stale) and a miss returns global_store computed on the table; the key is cached after the call, existing entries are kept, and nothing else is added; a coherent cache stays coherent |
| Store.MemoizedTwice | src/app.py:199-200 | on any cache, stale or not, a second call with the same key returns the same result and leaves the cache unchanged |

## Left out

- `get_data` (network fetch through the Meteostat client, with dates taken from the wall clock): the combined table is a parameter.
- The Dash layout, the `update_graph` chart callback and the Plotly figures: these are UI rendering.
- The Redis backend of `flask_caching`: its serialisation, eviction and key hashing are not modelled. `Store.Memoized` models only the lookup-or-compute behaviour on a map.
- Floating point: measurements are reals, so rounding, NaN values and pandas' NaN-skipping in `mean`/`sum` are not modelled.
- `Aggregation.CountryAverage` does not model pandas dropping a day whose `time` is NaT, since every modelled day is an integer.
- `src/tests.py` and `src/test_weather.py` are data-quality checks on fetched data. Only their (City, time) uniqueness invariant is used, as the hypothesis `UniqueCityDays`.
- The city registry (`cities`) is constant data. Only the two special dropdown entries appear, as constants. The filter does not consult the registry.
- FilterCityDays: accepts every integer `days`. In pandas, `pd.Timedelta(days=days)` raises once `days` leaves the int64-nanosecond range (about ±106,751 days), and `max_date - ...` raises when the cutoff leaves the Timestamp range (after 2262-04-11). Neither error is modelled. The dashboard's slider keeps `days` in 1..30 (src/app.py:117-123), so these values cannot reach the function. The same applies to `FilterWholeSpan`, `FilterMonotoneInDays` and `GlobalStore`.
