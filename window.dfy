/**
 * The trailing-window selection of the weather dashboard (`filter_city_days`).
 *
 * A table is the combined frame of daily observations for every city, in the
 * order the loader concatenated them. Pandas' boolean-mask indexing
 * `df[mask]` keeps, in order and unchanged, exactly the rows whose mask entry
 * is true; `Where` is that operation. `Mask` names the two masks the
 * dashboard builds (`time >= cutoff` and `City == name`) and, as `OnDay`,
 * the selection of one day's rows that stands for a `groupby("time")` group.
 */
module Window {

  datatype Option<+T> = None | Some(value: T)

  /** One daily observation of one city; `time` is a day number (midnight timestamps). */
  datatype Row = Row(city: string, time: int, tavg: real, wspd: real, pres: real, prcp: real)

  datatype Mask = TimeAtLeast(cutoff: int) | CityIs(name: string) | OnDay(day: int)
  {
    predicate Holds(r: Row) {
      match this
      case TimeAtLeast(cutoff) => r.time >= cutoff
      case CityIs(name) => r.city == name
      case OnDay(day) => r.time == day
    }
  }

  /** Python truthiness of the `city` argument: `None` and `""` are false. */
  predicate Truthy(city: Option<string>) {
    city.Some? && city.value != ""
  }

  /** `s` is obtained from `t` by deleting rows: same rows, same relative order. */
  ghost predicate IsSubsequence(s: seq<Row>, t: seq<Row>)
    decreases |t|
  {
    if t == [] then s == []
    else (s != [] && s[0] == t[0] && IsSubsequence(s[1..], t[1..])) || IsSubsequence(s, t[1..])
  }

  /** At most one row per (City, time) pair, as the data-quality test demands. */
  ghost predicate UniqueCityDays(t: seq<Row>) {
    forall i, j :: 0 <= i < j < |t| ==> t[i].city != t[j].city || t[i].time != t[j].time
  }

  /** The latest day present in the table (`df_input["time"].max()`). */
  function MaxTime(t: seq<Row>): (m: int)
    requires t != []
    ensures forall i :: 0 <= i < |t| ==> t[i].time <= m
    ensures exists i :: 0 <= i < |t| && t[i].time == m
  {
    if |t| == 1 then t[0].time
    else
      var rest := MaxTime(t[1..]);
      if t[0].time >= rest then t[0].time else rest
  }

  /** The earliest day present in the table. */
  function MinTime(t: seq<Row>): (m: int)
    requires t != []
    ensures forall i :: 0 <= i < |t| ==> m <= t[i].time
    ensures exists i :: 0 <= i < |t| && t[i].time == m
  {
    if |t| == 1 then t[0].time
    else
      var rest := MinTime(t[1..]);
      if t[0].time <= rest then t[0].time else rest
  }

  /** Boolean-mask selection `t[mask]`. */
  function Where(t: seq<Row>, m: Mask): (r: seq<Row>)
    ensures |r| <= |t|
    ensures forall x :: x in r <==> x in t && m.Holds(x)
  {
    if t == [] then []
    else (if m.Holds(t[0]) then [t[0]] else []) + Where(t[1..], m)
  }

  /**
   * `filter_city_days(df_input, city, days)`: the rows no older than `days`
   * days before the latest day of the table, restricted to `city` when the
   * city argument is truthy. An empty table gives an empty result (the
   * maximum of an empty column is NaT and no comparison with NaT holds).
   */
  function FilterCityDays(t: seq<Row>, city: Option<string>, days: int): (r: seq<Row>)
    ensures forall x :: x in r <==>
      t != [] && x in t && x.time >= MaxTime(t) - days && (Truthy(city) ==> x.city == city.value)
  {
    if t == [] then []
    else
      var windowed := Where(t, TimeAtLeast(MaxTime(t) - days));
      if Truthy(city) then Where(windowed, CityIs(city.value)) else windowed
  }

  // ----- Properties of the mask selection -----

  lemma {:induction false} WhereIsSubsequence(t: seq<Row>, m: Mask)
    ensures IsSubsequence(Where(t, m), t)
  {
    if t != [] {
      WhereIsSubsequence(t[1..], m);
      var r := Where(t, m);
      if m.Holds(t[0]) {
        assert r[0] == t[0] && r[1..] == Where(t[1..], m);
      } else {
        assert r == Where(t[1..], m);
      }
    }
  }

  /** Each row occurs in the selection exactly as often as in the table when the mask holds, else never. */
  lemma {:induction false} WhereMultiplicity(t: seq<Row>, m: Mask, x: Row)
    ensures multiset(Where(t, m))[x] == if m.Holds(x) then multiset(t)[x] else 0
  {
    if t != [] {
      WhereMultiplicity(t[1..], m, x);
      var head := if m.Holds(t[0]) then [t[0]] else [];
      assert multiset(t) == multiset([t[0]]) + multiset(t[1..]) by {
        assert t == [t[0]] + t[1..];
      }
      assert multiset(Where(t, m)) == multiset(head) + multiset(Where(t[1..], m));
    }
  }

  /** Every mask holds of every row: the selection is the whole table. */
  lemma {:induction false} WhereAll(t: seq<Row>, m: Mask)
    requires forall i :: 0 <= i < |t| ==> m.Holds(t[i])
    ensures Where(t, m) == t
  {
    if t != [] {
      WhereAll(t[1..], m);
      assert t == [t[0]] + t[1..];
    }
  }

  /** A weaker mask keeps at least the rows a stronger one keeps, in the same order. */
  lemma {:induction false} WhereWeaker(t: seq<Row>, strong: Mask, weak: Mask)
    requires forall x :: strong.Holds(x) ==> weak.Holds(x)
    ensures IsSubsequence(Where(t, strong), Where(t, weak))
  {
    if t != [] {
      WhereWeaker(t[1..], strong, weak);
      var s, w := Where(t, strong), Where(t, weak);
      if strong.Holds(t[0]) {
        assert s[0] == w[0] && s[1..] == Where(t[1..], strong) && w[1..] == Where(t[1..], weak);
      } else if weak.Holds(t[0]) {
        assert s == Where(t[1..], strong) && w[1..] == Where(t[1..], weak);
      } else {
        assert s == Where(t[1..], strong) && w == Where(t[1..], weak);
      }
    }
  }

  /** Masking both sides keeps the subsequence relation. */
  lemma {:induction false} WherePreservesSubsequence(a: seq<Row>, b: seq<Row>, m: Mask)
    requires IsSubsequence(a, b)
    ensures IsSubsequence(Where(a, m), Where(b, m))
    decreases |b|
  {
    if b == [] {
      assert a == [];
    } else {
      var wa, wb := Where(a, m), Where(b, m);
      assert wb == (if m.Holds(b[0]) then [b[0]] else []) + Where(b[1..], m);
      if a != [] && a[0] == b[0] && IsSubsequence(a[1..], b[1..]) {
        WherePreservesSubsequence(a[1..], b[1..], m);
        assert wa == (if m.Holds(a[0]) then [a[0]] else []) + Where(a[1..], m);
        if m.Holds(b[0]) {
          assert wa[0] == wb[0] && wa[1..] == Where(a[1..], m) && wb[1..] == Where(b[1..], m);
        } else {
          assert wa == Where(a[1..], m) && wb == Where(b[1..], m);
        }
      } else {
        WherePreservesSubsequence(a, b[1..], m);
        if m.Holds(b[0]) {
          assert wb != [] && wb[1..] == Where(b[1..], m);
        } else {
          assert wb == Where(b[1..], m);
        }
      }
    }
  }

  lemma {:induction false} SubsequenceTransitive(a: seq<Row>, b: seq<Row>, c: seq<Row>)
    requires IsSubsequence(a, b) && IsSubsequence(b, c)
    ensures IsSubsequence(a, c)
    decreases |c|
  {
    if c == [] {
      assert b == [] && a == [];
    } else if b != [] && b[0] == c[0] && IsSubsequence(b[1..], c[1..]) {
      if a != [] && a[0] == b[0] && IsSubsequence(a[1..], b[1..]) {
        SubsequenceTransitive(a[1..], b[1..], c[1..]);
      } else {
        SubsequenceTransitive(a, b[1..], c[1..]);
      }
    } else {
      SubsequenceTransitive(a, b, c[1..]);
    }
  }

  lemma {:induction false} SubsequenceMembers(s: seq<Row>, t: seq<Row>)
    requires IsSubsequence(s, t)
    ensures forall x :: x in s ==> x in t
    decreases |t|
  {
    if t != [] {
      if s != [] && s[0] == t[0] && IsSubsequence(s[1..], t[1..]) {
        SubsequenceMembers(s[1..], t[1..]);
        assert s == [s[0]] + s[1..];
      } else {
        SubsequenceMembers(s, t[1..]);
      }
    }
  }

  /** Deleting rows cannot create a duplicate (City, time) pair. */
  lemma {:induction false} SubsequenceKeepsUnique(s: seq<Row>, t: seq<Row>)
    requires IsSubsequence(s, t) && UniqueCityDays(t)
    ensures UniqueCityDays(s)
    decreases |t|
  {
    if t != [] {
      var t' := t[1..];
      assert UniqueCityDays(t') by {
        forall i, j | 0 <= i < j < |t'| ensures t'[i].city != t'[j].city || t'[i].time != t'[j].time {
          assert t'[i] == t[i + 1] && t'[j] == t[j + 1];
        }
      }
      if s != [] && s[0] == t[0] && IsSubsequence(s[1..], t') {
        var s' := s[1..];
        SubsequenceKeepsUnique(s', t');
        SubsequenceMembers(s', t');
        forall i, j | 0 <= i < j < |s| ensures s[i].city != s[j].city || s[i].time != s[j].time {
          assert s[j] == s'[j - 1];
          if i == 0 {
            assert s'[j - 1] in t';
            var k :| 0 <= k < |t'| && t'[k] == s'[j - 1];
            assert t[k + 1] == s[j];
          } else {
            assert s[i] == s'[i - 1];
          }
        }
      } else {
        SubsequenceKeepsUnique(s, t');
      }
    }
  }

  // ----- Properties of filter_city_days -----

  /** The result is the input with rows deleted: nothing invented, nothing changed, order kept. */
  lemma FilterIsSubsequence(t: seq<Row>, city: Option<string>, days: int)
    ensures IsSubsequence(FilterCityDays(t, city, days), t)
  {
    if t != [] {
      var windowed := Where(t, TimeAtLeast(MaxTime(t) - days));
      WhereIsSubsequence(t, TimeAtLeast(MaxTime(t) - days));
      if Truthy(city) {
        WhereIsSubsequence(windowed, CityIs(city.value));
        SubsequenceTransitive(FilterCityDays(t, city, days), windowed, t);
      }
    }
  }

  /** Completeness with multiplicity: every qualifying row is kept as many times as it occurs, no other row is. */
  lemma FilterMultiplicity(t: seq<Row>, city: Option<string>, days: int, x: Row)
    requires t != []
    ensures multiset(FilterCityDays(t, city, days))[x] ==
      if x.time >= MaxTime(t) - days && (Truthy(city) ==> x.city == city.value) then multiset(t)[x] else 0
  {
    var windowed := Where(t, TimeAtLeast(MaxTime(t) - days));
    WhereMultiplicity(t, TimeAtLeast(MaxTime(t) - days), x);
    if Truthy(city) {
      WhereMultiplicity(windowed, CityIs(city.value), x);
    }
  }

  /** A window covering the whole span returns the whole table, or the city's whole history. */
  lemma FilterWholeSpan(t: seq<Row>, city: Option<string>, days: int)
    requires t != [] && days >= MaxTime(t) - MinTime(t)
    ensures FilterCityDays(t, city, days) == if Truthy(city) then Where(t, CityIs(city.value)) else t
  {
    WhereAll(t, TimeAtLeast(MaxTime(t) - days));
  }

  /** Widening the window never removes a row. */
  lemma FilterMonotoneInDays(t: seq<Row>, city: Option<string>, shorter: int, longer: int)
    requires shorter <= longer
    ensures IsSubsequence(FilterCityDays(t, city, shorter), FilterCityDays(t, city, longer))
  {
    if t != [] {
      var narrow, wide := TimeAtLeast(MaxTime(t) - shorter), TimeAtLeast(MaxTime(t) - longer);
      WhereWeaker(t, narrow, wide);
      if Truthy(city) {
        WherePreservesSubsequence(Where(t, narrow), Where(t, wide), CityIs(city.value));
      }
    }
  }

  /** At most one row per (City, time) in the table implies the same of the result. */
  lemma FilterKeepsUnique(t: seq<Row>, city: Option<string>, days: int)
    requires UniqueCityDays(t)
    ensures UniqueCityDays(FilterCityDays(t, city, days))
  {
    FilterIsSubsequence(t, city, days);
    SubsequenceKeepsUnique(FilterCityDays(t, city, days), t);
  }

  /** The set of days on which some row of `s` was observed. */
  function DaysOf(s: seq<Row>): (days: set<int>)
    ensures forall d :: d in days <==> exists i :: 0 <= i < |s| && s[i].time == d
  {
    if s == [] then {}
    else
      var rest := DaysOf(s[1..]);
      assert forall i :: 0 < i < |s| ==> s[i] == s[1..][i - 1];
      {s[0].time} + rest
  }

  lemma {:induction false} DistinctDaysCount(s: seq<Row>)
    requires forall i, j :: 0 <= i < j < |s| ==> s[i].time != s[j].time
    ensures |DaysOf(s)| == |s|
  {
    if s != [] {
      var s' := s[1..];
      forall i, j | 0 <= i < j < |s'| ensures s'[i].time != s'[j].time {
        assert s'[i] == s[i + 1] && s'[j] == s[j + 1];
      }
      DistinctDaysCount(s');
      assert s[0].time !in DaysOf(s') by {
        forall k | 0 <= k < |s'| ensures s'[k].time != s[0].time {
          assert s'[k] == s[k + 1];
        }
      }
    }
  }

  lemma {:induction false} BoundedDaysCount(days: set<int>, lo: int, hi: int)
    requires forall k :: k in days ==> lo <= k <= hi
    ensures |days| <= if lo <= hi then hi - lo + 1 else 0
    decreases hi - lo
  {
    if hi < lo {
      assert forall k :: k !in days;
      assert days == {};
    } else {
      BoundedDaysCount(days - {hi}, lo, hi - 1);
    }
  }

  /**
   * With at most one row per (City, time), a single-city window of `days` days
   * holds at most `days + 1` rows (both ends of the window are included).
   */
  lemma SingleCityWindowSize(t: seq<Row>, city: Option<string>, days: int)
    requires Truthy(city) && UniqueCityDays(t)
    ensures |FilterCityDays(t, city, days)| <= if days >= 0 then days + 1 else 0
  {
    var r := FilterCityDays(t, city, days);
    if t != [] {
      FilterKeepsUnique(t, city, days);
      assert forall i :: 0 <= i < |r| ==> r[i] in r;
      forall i, j | 0 <= i < j < |r| ensures r[i].time != r[j].time {
        assert r[i].city == city.value && r[j].city == city.value;
      }
      DistinctDaysCount(r);
      BoundedDaysCount(DaysOf(r), MaxTime(t) - days, MaxTime(t));
    }
  }
}
