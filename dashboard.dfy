/** The aggregation step of the dashboard script: the summary figures and the
    three derived views the charts draw, computed from the cleaned table. */
module Dashboard {
  import opened Trips
  import opened Sequences
  import opened Cleaning
  import opened Counting

  /** Length of the station rankings (`head(10)`). */
  const TopStationCount: nat := 10

  function DepartureStations(clean: seq<CleanTrip>): seq<Option<string>>
  {
    seq(|clean|, i requires 0 <= i < |clean| => clean[i].trip.departureStation)
  }

  function ReturnStations(clean: seq<CleanTrip>): seq<Option<string>>
  {
    seq(|clean|, i requires 0 <= i < |clean| => clean[i].trip.returnStation)
  }

  function Dates(clean: seq<CleanTrip>): seq<Option<Date>>
  {
    seq(|clean|, i requires 0 <= i < |clean| => clean[i].date)
  }

  function DurationsInMinutes(clean: seq<CleanTrip>): seq<Option<real>>
  {
    seq(|clean|, i requires 0 <= i < |clean| => clean[i].durationMinutes)
  }

  function Distances(clean: seq<CleanTrip>): seq<Option<real>>
  {
    seq(|clean|, i requires 0 <= i < |clean| => clean[i].trip.distance)
  }

  /** `value_counts().head(10)` on a station column: at most ten distinct
      stations, each with its exact number of trips, busiest first, and no
      station left out is busier than the last one listed. */
  function TopStations(col: seq<Option<string>>): (r: seq<Tally<string>>)
    ensures |r| <= TopStationCount
    ensures DistinctKeys(r)
    ensures SortedByCount(r)
    ensures forall i :: 0 <= i < |r| ==> r[i].count == Count(col, r[i].key) && r[i].count > 0
    ensures forall i :: 0 <= i < |col| && col[i].Some? && col[i].value !in Keys(r) ==>
      |r| == TopStationCount && Count(col, col[i].value) <= r[|r| - 1].count
    ensures |r| < TopStationCount ==> forall i :: 0 <= i < |col| && col[i].Some? ==> col[i].value in Keys(r)
  {
    var all := ValueCounts(col);
    var r := Head(all, TopStationCount);
    assert forall j :: 0 <= j < |r| ==> Keys(r)[j] == Keys(all)[j];
    assert forall i :: 0 <= i < |col| && col[i].Some? && col[i].value !in Keys(r) ==>
      |r| == TopStationCount && Count(col, col[i].value) <= r[|r| - 1].count
    by {
      forall i | 0 <= i < |col| && col[i].Some? && col[i].value !in Keys(r)
        ensures |r| == TopStationCount && Count(col, col[i].value) <= r[|r| - 1].count
      {
        var m :| 0 <= m < |all| && Keys(all)[m] == col[i].value;
        assert r[|r| - 1] == all[|r| - 1];
      }
    }
    r
  }

  /** Sum of the non-missing values of a numeric column. */
  function Sum(col: seq<Option<real>>): real
  {
    if col == [] then 0.0
    else Sum(col[..|col| - 1]) + (match col[|col| - 1] case Some(v) => v case None => 0.0)
  }

  /** `mean()`: the average of the non-missing values; undefined (NaN, here
      `None`) when there are none. */
  function Mean(col: seq<Option<real>>): (m: Option<real>)
    ensures m.None? <==> Present(col) == 0
    ensures m.Some? ==> m.value * (Present(col) as real) == Sum(col)
  {
    if Present(col) == 0 then None else Some(Sum(col) / Present(col) as real)
  }

  /** Everything the script prints and plots, as computed from the cleaned table. */
  datatype Summary = Summary(
    totalTrips: nat,
    meanDurationMinutes: Option<real>,
    meanDistance: Option<real>,
    topDeparture: seq<Tally<string>>,
    topReturn: seq<Tally<string>>,
    dailyTrips: seq<Tally<Date>>)

  function Summarize(clean: seq<CleanTrip>): Summary
  {
    Summary(
      |clean|,
      Mean(DurationsInMinutes(clean)),
      Mean(Distances(clean)),
      TopStations(DepartureStations(clean)),
      TopStations(ReturnStations(clean)),
      DateCounts(Dates(clean)))
  }

  /** Lines 17-37 of the script: clean the raw rows, then aggregate. */
  method Analyze(raw: seq<RawTrip>, parse: Parsers) returns (s: Summary)
    ensures s == Summarize(CleanTrips(raw, parse))
    ensures s.totalTrips <= |raw|
  {
    var clean := Clean(raw, parse);
    s := Summarize(clean);
  }

  // ---------------------------------------------------------------------
  // Properties of the views.
  // ---------------------------------------------------------------------

  lemma {:induction false} PresentWhenNoneMissing<K>(col: seq<Option<K>>)
    requires forall i :: 0 <= i < |col| ==> col[i].Some?
    ensures Present(col) == |col|
  {
    if col != [] {
      PresentWhenNoneMissing(col[..|col| - 1]);
    }
  }

  lemma {:induction false} TotalOfPrefix<K>(ts: seq<Tally<K>>, n: nat)
    requires n <= |ts|
    ensures Total(ts[..n]) <= Total(ts)
  {
    if n > 0 {
      assert ts[..n][1..] == ts[1..][..n - 1];
      TotalOfPrefix(ts[1..], n - 1);
    }
  }

  lemma {:induction false} PresentAtMostLength<K>(col: seq<Option<K>>)
    ensures Present(col) <= |col|
  {
    if col != [] {
      PresentAtMostLength(col[..|col| - 1]);
    }
  }

  /** The printed total is the number of cleaned trips; the daily counts add up
      to it; the station rankings, which skip trips without a station name and
      are cut after ten entries, add up to at most it. */
  lemma {:induction false} CountsAddUp(raw: seq<RawTrip>, parse: Parsers)
    ensures Summarize(CleanTrips(raw, parse)).totalTrips == |CleanTrips(raw, parse)| <= |raw|
    ensures Total(Summarize(CleanTrips(raw, parse)).dailyTrips) == |CleanTrips(raw, parse)|
    ensures Total(Summarize(CleanTrips(raw, parse)).topDeparture) <= |CleanTrips(raw, parse)|
    ensures Total(Summarize(CleanTrips(raw, parse)).topReturn) <= |CleanTrips(raw, parse)|
  {
    var clean := CleanTrips(raw, parse);
    CleanedIsOrderedSubsequence(raw, parse);
    CleanedRowsAreValid(raw, parse);
    var dates := Dates(clean);
    assert forall i :: 0 <= i < |dates| ==> dates[i].Some? by {
      forall i | 0 <= i < |dates| ensures dates[i].Some? {
        assert clean[i] in clean;
      }
    }
    PresentWhenNoneMissing(dates);
    var deps, rets := DepartureStations(clean), ReturnStations(clean);
    PresentAtMostLength(deps);
    PresentAtMostLength(rets);
    TotalOfPrefix(ValueCounts(deps), |TopStations(deps)|);
    TotalOfPrefix(ValueCounts(rets), |TopStations(rets)|);
  }

  lemma {:induction false} CountWhenAllEqual<K>(col: seq<Option<K>>, k: K)
    requires forall i :: 0 <= i < |col| ==> col[i] == Some(k)
    ensures Count(col, k) == |col|
  {
    if col != [] {
      CountWhenAllEqual(col[..|col| - 1], k);
    }
  }

  lemma {:induction false} TotalOfEqualCounts<K>(ts: seq<Tally<K>>, c: nat)
    requires forall i :: 0 <= i < |ts| ==> ts[i].count == c
    ensures Total(ts) == |ts| * c
  {
    if ts != [] {
      TotalOfEqualCounts(ts[1..], c);
    }
  }

  /** An input whose cleaned trips all leave from one station ranks exactly
      that station, with all cleaned trips. */
  lemma SingleDepartureStation(raw: seq<RawTrip>, parse: Parsers, station: string)
    requires CleanTrips(raw, parse) != []
    requires forall c :: c in CleanTrips(raw, parse) ==> c.trip.departureStation == Some(station)
    ensures Summarize(CleanTrips(raw, parse)).topDeparture
         == [Tally(station, |CleanTrips(raw, parse)|)]
  {
    var clean := CleanTrips(raw, parse);
    var col := DepartureStations(clean);
    var n := |col|;
    assert forall i :: 0 <= i < |col| ==> col[i] == Some(station) by {
      forall i | 0 <= i < |col| ensures col[i] == Some(station) {
        assert clean[i] in clean;
      }
    }
    PresentWhenNoneMissing(col);
    CountWhenAllEqual(col, station);
    var all := ValueCounts(col);
    forall i | 0 <= i < |all| ensures all[i].key == station && all[i].count == n {
      CountPositive(col, all[i].key);
    }
    TotalOfEqualCounts(all, n);
    assert |all| * n == 1 * n;
    assert |all| == 1;
    assert all == [Tally(station, n)];
  }

  /** An input with no valid rows gives a zero total, undefined means and
      empty views. */
  lemma NoValidRows(raw: seq<RawTrip>, parse: Parsers)
    requires forall i :: 0 <= i < |raw| ==> !Survives(Coerce(raw[i], parse))
    ensures Summarize(CleanTrips(raw, parse)) == Summary(0, None, None, [], [], [])
  {
  }

  lemma {:induction false} SumOfNothing(col: seq<Option<real>>)
    requires Present(col) == 0
    ensures Sum(col) == 0.0
  {
    if col != [] {
      SumOfNothing(col[..|col| - 1]);
    }
  }

  lemma {:induction false} SumBelow(col: seq<Option<real>>, bound: real)
    requires forall i :: 0 <= i < |col| && col[i].Some? ==> col[i].value < bound
    requires Present(col) > 0
    ensures Sum(col) < bound * Present(col) as real
  {
    var init, last := col[..|col| - 1], col[|col| - 1];
    assert last == col[|col| - 1];
    var n := Present(init) as real;
    if last.None? {
      assert Present(col) == Present(init) && Sum(col) == Sum(init);
      SumBelow(init, bound);
    } else {
      assert last.value < bound;
      assert Present(col) as real == n + 1.0 && Sum(col) == Sum(init) + last.value;
      if Present(init) > 0 {
        SumBelow(init, bound);
        assert Sum(init) < bound * n;
      } else {
        SumOfNothing(init);
        assert bound * n == 0.0;
      }
      assert bound * (n + 1.0) == bound * n + bound;
    }
  }

  lemma {:induction false} SumAbove(col: seq<Option<real>>, bound: real)
    requires forall i :: 0 <= i < |col| && col[i].Some? ==> col[i].value > bound
    requires Present(col) > 0
    ensures Sum(col) > bound * Present(col) as real
  {
    var init, last := col[..|col| - 1], col[|col| - 1];
    assert last == col[|col| - 1];
    var n := Present(init) as real;
    if last.None? {
      assert Present(col) == Present(init) && Sum(col) == Sum(init);
      SumAbove(init, bound);
    } else {
      assert last.value > bound;
      assert Present(col) as real == n + 1.0 && Sum(col) == Sum(init) + last.value;
      if Present(init) > 0 {
        SumAbove(init, bound);
        assert Sum(init) > bound * n;
      } else {
        SumOfNothing(init);
        assert bound * n == 0.0;
      }
      assert bound * (n + 1.0) == bound * n + bound;
    }
  }

  lemma MeanBetween(sum: real, n: real, lo: real, hi: real)
    requires n > 0.0 && lo * n < sum < hi * n
    ensures lo < sum / n < hi
  {
  }

  /** The average of a column whose values all lie strictly between two bounds
      lies between them too. */
  lemma MeanOfBoundedColumn(col: seq<Option<real>>, lo: real, hi: real)
    requires forall i :: 0 <= i < |col| && col[i].Some? ==> lo < col[i].value < hi
    requires Present(col) > 0
    ensures Mean(col).Some? && lo < Mean(col).value < hi
  {
    SumBelow(col, hi);
    SumAbove(col, lo);
    MeanBetween(Sum(col), Present(col) as real, lo, hi);
  }

  /** Every cleaned trip has a duration in minutes strictly between 0 and 600
      and a positive distance. */
  lemma CleanColumnsInRange(raw: seq<RawTrip>, parse: Parsers)
    ensures var clean := CleanTrips(raw, parse);
      forall i :: 0 <= i < |clean| ==>
        && DurationsInMinutes(clean)[i].Some? && 0.0 < DurationsInMinutes(clean)[i].value < 600.0
        && Distances(clean)[i].Some? && Distances(clean)[i].value > 0.0
  {
  }

  /** The average of a column of positive values is positive. */
  lemma MeanOfPositiveColumn(col: seq<Option<real>>)
    requires forall i :: 0 <= i < |col| && col[i].Some? ==> col[i].value > 0.0
    requires Present(col) > 0
    ensures Mean(col).Some? && Mean(col).value > 0.0
  {
    SumAbove(col, 0.0);
    MeanBetween(Sum(col), Present(col) as real, 0.0, Sum(col) + 1.0);
  }

  /** On a non-empty cleaned table both averages are defined, the average
      duration lies strictly between 0 and 600 minutes and the average distance
      is positive; on an empty one both are undefined. */
  lemma MeansOfCleanTrips(raw: seq<RawTrip>, parse: Parsers)
    ensures CleanTrips(raw, parse) == [] <==> Summarize(CleanTrips(raw, parse)).meanDurationMinutes.None?
    ensures CleanTrips(raw, parse) == [] <==> Summarize(CleanTrips(raw, parse)).meanDistance.None?
    ensures CleanTrips(raw, parse) != [] ==>
      0.0 < Summarize(CleanTrips(raw, parse)).meanDurationMinutes.value < 600.0
    ensures CleanTrips(raw, parse) != [] ==> Summarize(CleanTrips(raw, parse)).meanDistance.value > 0.0
  {
    var clean := CleanTrips(raw, parse);
    var minutes, distances := DurationsInMinutes(clean), Distances(clean);
    assert Summarize(clean).meanDurationMinutes == Mean(minutes);
    assert Summarize(clean).meanDistance == Mean(distances);
    CleanColumnsInRange(raw, parse);
    PresentWhenNoneMissing(minutes);
    PresentWhenNoneMissing(distances);
    if clean != [] {
      MeanOfBoundedColumn(minutes, 0.0, 600.0);
      MeanOfPositiveColumn(distances);
    }
  }
}
