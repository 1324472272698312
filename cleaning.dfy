/** The cleaning step of the dashboard script: timestamp coercion, removal of
    rows with missing or out-of-range values, and the two derived columns. */
module Cleaning {
  import opened Trips
  import opened Sequences

  /** Trips of ten hours or more are treated as outliers (seconds). */
  const OutlierLimit: real := 36000.0

  /** The timestamp parsers of the two `pd.to_datetime` calls, one per column.
      Each call settles its own format from its own column, so the same text
      may parse in one column and not in the other. */
  datatype Parsers = Parsers(
    departure: string -> Option<DateTime>,
    returnTime: string -> Option<DateTime>)

  /** Coercion of one timestamp cell: text the parser rejects, like a missing
      cell, becomes missing (NaT) instead of raising an error. */
  function CoerceTimestamp(cell: Option<string>, parse: string -> Option<DateTime>): Option<DateTime>
  {
    match cell
    case None => None
    case Some(text) => parse(text)
  }

  function Coerce(r: RawTrip, parse: Parsers): Trip
  {
    Trip(CoerceTimestamp(r.departureText, parse.departure), CoerceTimestamp(r.returnText, parse.returnTime),
         r.distance, r.duration, r.departureStation, r.returnStation)
  }

  /** The table after both timestamp columns are coerced, row by row. */
  function CoerceAll(raw: seq<RawTrip>, parse: Parsers): seq<Trip>
  {
    seq(|raw|, i requires 0 <= i < |raw| => Coerce(raw[i], parse))
  }

  /** Kept by `dropna` on Departure, Return and Covered distance. */
  predicate HasRequired(t: Trip)
  {
    t.departure.Some? && t.returnTime.Some? && t.distance.Some?
  }

  /** Kept by the mask `distance > 0 & duration > 0`; a comparison with a
      missing value is false, so a missing duration is dropped here. */
  predicate PositiveMeasures(t: Trip)
  {
    t.distance.Some? && t.distance.value > 0.0 && t.duration.Some? && t.duration.value > 0.0
  }

  /** Kept by the outlier mask `duration < 36000`. */
  predicate BelowOutlierLimit(t: Trip)
  {
    t.duration.Some? && t.duration.value < OutlierLimit
  }

  /** The single row condition of the whole cleaning step. */
  predicate Survives(t: Trip)
  {
    HasRequired(t) && PositiveMeasures(t) && BelowOutlierLimit(t)
  }

  /** `Duration (min)`: seconds divided by 60; a missing duration stays missing. */
  function Minutes(duration: Option<real>): Option<real>
  {
    match duration
    case None => None
    case Some(seconds) => Some(seconds / 60.0)
  }

  /** `Date`: the calendar date of the departure timestamp. */
  function DateOf(departure: Option<DateTime>): Option<Date>
  {
    match departure
    case None => None
    case Some(stamp) => Some(stamp.date)
  }

  function Derive(t: Trip): CleanTrip
  {
    CleanTrip(t, Minutes(t.duration), DateOf(t.departure))
  }

  function DeriveAll(rows: seq<Trip>): seq<CleanTrip>
  {
    seq(|rows|, i requires 0 <= i < |rows| => Derive(rows[i]))
  }

  /** The trips of a cleaned table, without their derived columns. */
  function Rows(clean: seq<CleanTrip>): seq<Trip>
  {
    seq(|clean|, i requires 0 <= i < |clean| => clean[i].trip)
  }

  /** Reference definition of the cleaned table: one filter by the conjunction
      of all conditions, then the derived columns. */
  function CleanTrips(raw: seq<RawTrip>, parse: Parsers): seq<CleanTrip>
  {
    DeriveAll(Filter(CoerceAll(raw, parse), Survives))
  }

  // ---------------------------------------------------------------------
  // The script's steps, as it performs them: one stage after the other.
  // ---------------------------------------------------------------------

  /** Both timestamp columns are overwritten with their coerced values. */
  method CoerceTimestamps(raw: seq<RawTrip>, parse: Parsers) returns (rows: seq<Trip>)
    ensures |rows| == |raw|
    ensures forall i :: 0 <= i < |raw| ==>
      && rows[i].departure == CoerceTimestamp(raw[i].departureText, parse.departure)
      && rows[i].returnTime == CoerceTimestamp(raw[i].returnText, parse.returnTime)
      && rows[i].distance == raw[i].distance
      && rows[i].duration == raw[i].duration
      && rows[i].departureStation == raw[i].departureStation
      && rows[i].returnStation == raw[i].returnStation
    ensures rows == CoerceAll(raw, parse)
  {
    rows := [];
    var i := 0;
    while i < |raw|
      invariant 0 <= i <= |raw|
      invariant rows == CoerceAll(raw[..i], parse)
    {
      assert CoerceAll(raw[..i + 1], parse) == CoerceAll(raw[..i], parse) + [Coerce(raw[i], parse)];
      rows := rows + [Coerce(raw[i], parse)];
      i := i + 1;
    }
    assert raw[..i] == raw;
  }

  /** Keeps the rows the mask accepts, in order (a boolean-mask selection, or
      `dropna` when the mask is "no required cell is missing"). */
  method SelectRows(rows: seq<Trip>, keep: Trip -> bool) returns (kept: seq<Trip>)
    ensures kept == Filter(rows, keep)
  {
    kept := [];
    var i := 0;
    while i < |rows|
      invariant 0 <= i <= |rows|
      invariant kept == Filter(rows[..i], keep)
    {
      FilterSnoc(rows[..i], rows[i], keep);
      assert rows[..i + 1] == rows[..i] + [rows[i]];
      if keep(rows[i]) {
        kept := kept + [rows[i]];
      }
      i := i + 1;
    }
    assert rows[..i] == rows;
  }

  /** Adds `Duration (min)` and `Date` to every row; nothing else changes. */
  method AddDerivedColumns(rows: seq<Trip>) returns (clean: seq<CleanTrip>)
    ensures |clean| == |rows|
    ensures Rows(clean) == rows
    ensures forall i :: 0 <= i < |rows| ==>
      && (rows[i].duration.Some? ==> clean[i].durationMinutes == Some(rows[i].duration.value / 60.0))
      && (rows[i].duration.None? ==> clean[i].durationMinutes.None?)
      && (rows[i].departure.Some? ==> clean[i].date == Some(rows[i].departure.value.date))
      && (rows[i].departure.None? ==> clean[i].date.None?)
    ensures clean == DeriveAll(rows)
  {
    clean := [];
    var i := 0;
    while i < |rows|
      invariant 0 <= i <= |rows|
      invariant clean == DeriveAll(rows[..i])
    {
      assert DeriveAll(rows[..i + 1]) == DeriveAll(rows[..i]) + [Derive(rows[i])];
      clean := clean + [Derive(rows[i])];
      i := i + 1;
    }
    assert rows[..i] == rows;
  }

  /** Lines 17-27 of the script: the staged cleaning yields the reference table. */
  method Clean(raw: seq<RawTrip>, parse: Parsers) returns (clean: seq<CleanTrip>)
    ensures clean == CleanTrips(raw, parse)
    ensures |clean| <= |raw|
  {
    var df := CoerceTimestamps(raw, parse);
    var coerced := df;
    df := SelectRows(df, HasRequired);
    df := SelectRows(df, PositiveMeasures);
    df := SelectRows(df, BelowOutlierLimit);
    StagesAreConjunction(coerced);
    clean := AddDerivedColumns(df);
  }

  // ---------------------------------------------------------------------
  // Properties of the cleaned table.
  // ---------------------------------------------------------------------

  /** Filtering in three stages is the same as filtering once by `Survives`. */
  lemma StagesAreConjunction(rows: seq<Trip>)
    ensures Filter(Filter(Filter(rows, HasRequired), PositiveMeasures), BelowOutlierLimit)
         == Filter(rows, Survives)
  {
    var both := (t: Trip) => HasRequired(t) && PositiveMeasures(t);
    FilterFusion(rows, HasRequired, PositiveMeasures, both);
    FilterFusion(rows, both, BelowOutlierLimit, Survives);
  }

  /** A coerced row is in the cleaned table exactly when it meets every condition. */
  lemma SurvivorsAreExactlyValidRows(raw: seq<RawTrip>, parse: Parsers, t: Trip)
    ensures t in Rows(CleanTrips(raw, parse)) <==> t in CoerceAll(raw, parse) && Survives(t)
  {
    var coerced := CoerceAll(raw, parse);
    var kept := Filter(coerced, Survives);
    RowsOfDerived(kept);
    if t in coerced && Survives(t) {
      var i :| 0 <= i < |coerced| && coerced[i] == t;
    }
    if t in kept {
      var i :| 0 <= i < |kept| && kept[i] == t;
    }
  }

  lemma RowsOfDerived(rows: seq<Trip>)
    ensures Rows(DeriveAll(rows)) == rows
  {
  }

  /** Every cleaned row satisfies all conditions and carries the derived
      columns computed from its own duration and departure. */
  lemma CleanedRowsAreValid(raw: seq<RawTrip>, parse: Parsers)
    ensures forall c :: c in CleanTrips(raw, parse) ==>
      && Survives(c.trip)
      && c.trip.distance.value > 0.0
      && 0.0 < c.trip.duration.value < 36000.0
      && c.durationMinutes == Some(c.trip.duration.value / 60.0)
      && 0.0 < c.durationMinutes.value < 600.0
      && c.date == Some(c.trip.departure.value.date)
  {
  }

  /** The cleaned trips appear in the coerced table in their original order,
      so there are never more of them than raw rows. */
  lemma CleanedIsOrderedSubsequence(raw: seq<RawTrip>, parse: Parsers)
    ensures IsSubsequence(Rows(CleanTrips(raw, parse)), CoerceAll(raw, parse))
    ensures |CleanTrips(raw, parse)| <= |raw|
  {
    var kept := Filter(CoerceAll(raw, parse), Survives);
    RowsOfDerived(kept);
    FilterIsSubsequence(CoerceAll(raw, parse), Survives);
  }

  /** No row is dropped exactly when every row meets every condition. */
  lemma NothingDroppedIffAllValid(raw: seq<RawTrip>, parse: Parsers)
    ensures |CleanTrips(raw, parse)| == |raw| <==> forall i :: 0 <= i < |raw| ==> Survives(Coerce(raw[i], parse))
  {
    var coerced := CoerceAll(raw, parse);
    FilterKeepsAll(coerced, Survives);
    assert |CleanTrips(raw, parse)| == |Filter(coerced, Survives)|;
    if forall i :: 0 <= i < |raw| ==> Survives(Coerce(raw[i], parse)) {
      assert forall i :: 0 <= i < |coerced| ==> Survives(coerced[i]);
    } else {
      var i :| 0 <= i < |raw| && !Survives(Coerce(raw[i], parse));
      assert !Survives(coerced[i]);
    }
  }

  /** Appending one raw row appends its cleaned form if and only if it is valid. */
  lemma CleanAppend(raw: seq<RawTrip>, r: RawTrip, parse: Parsers)
    ensures CleanTrips(raw + [r], parse)
         == CleanTrips(raw, parse) + (if Survives(Coerce(r, parse)) then [Derive(Coerce(r, parse))] else [])
  {
    assert CoerceAll(raw + [r], parse) == CoerceAll(raw, parse) + [Coerce(r, parse)];
    FilterSnoc(CoerceAll(raw, parse), Coerce(r, parse), Survives);
  }

  /** The row-level thresholds: once the timestamps parsed and the distance is
      positive, a row survives exactly when 0 < duration < 36000 seconds. A row
      with 35999 seconds is kept; 36000 and 40000 seconds, a missing duration,
      and a non-positive distance or duration are dropped. */
  lemma DurationThreshold(t: Trip)
    requires HasRequired(t)
    ensures t.distance.value > 0.0 ==>
      (Survives(t) <==> t.duration.Some? && 0.0 < t.duration.value < 36000.0)
    ensures t.distance.value <= 0.0 ==> !Survives(t)
    ensures t.duration == Some(35999.0) && t.distance.value > 0.0 ==> Survives(t)
    ensures t.duration == Some(36000.0) || t.duration == Some(40000.0) || t.duration.None? ==> !Survives(t)
  {
  }
}
