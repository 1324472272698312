# Bike trips dashboard: cleaning and aggregation

This project models the data pipeline of a small bike-rental analysis script,
`main.py`. The script loads a table of trips and cleans it. It then computes the
figures it prints and the views its dashboard charts draw.

- **Cleaning** (`main.py` lines 17-27). The `Departure` and `Return` columns
  are coerced to timestamps, and a value that does not parse becomes missing.
  Rows with a missing departure, return or covered distance are dropped. Rows
  whose distance or duration is not positive are dropped. Rows of 36000 seconds
  (ten hours) or more are dropped as outliers. Every remaining row gains
  `Duration (min)` (seconds / 60) and `Date` (the calendar date of departure).
- **Aggregation** (lines 30-37). The script computes the total number of trips,
  the mean duration and mean distance, the ten busiest departure stations, the
  ten busiest return stations, and the trips per day in date order.

Modules:

- `Trips` (`trips.dfy`): the records. A raw row, a coerced row (`Trip`), a
  cleaned row with its derived columns (`CleanTrip`), plus dates and their
  chronological order. A missing cell (NaN/NaT) is `None`.
- `Sequences` (`sequences.dfy`): `Filter`, the meaning of a boolean row mask.
  It also holds the lemmas about filtering: order-preserving subsequence,
  nothing dropped, fusion of successive filters.
- `Cleaning` (`cleaning.dfy`): the script's cleaning steps as methods with
  loops, run stage by stage as the script runs them. They are proved equal to
  a reference definition, `CleanTrips`, which filters once by the conjunction of
  all the conditions. Lemmas state the properties of the cleaned table.
- `Counting` (`counting.dfy`): the observable meaning of `value_counts`,
  `head` and `sort_index`. These are occurrence counts of the non-missing values,
  ordered by descending count or by ascending date.
- `Dashboard` (`dashboard.dfy`): the summary (`Summary`, `Summarize`), the
  whole pipeline `Analyze`, and the properties of the views.

The timestamp parsers of the two `pd.to_datetime` calls are a parameter
`parse: Parsers`, one function `string -> Option<DateTime>` per column
(`parse.departure`, `parse.returnTime`). Each call settles its format from its
own column, so the same text can parse under `Departure` and not under `Return`.
The model fixes only what the script does with a parser's result: a failure,
like an empty cell, becomes a missing value.

## Model

| member | source | states |
|---|---|---|
| `Cleaning.CoerceTimestamps` | main.py:17-18 | Each timestamp column holds its own column parser's result; missing or unparsable text becomes missing; every other column and the row order are unchanged |
| `Sequences.Filter` | main.py:21-23 | A row selection keeps exactly the rows that meet the condition, in order, and never adds rows |
| `Sequences.FilterMultiplicity` | main.py:21-23 | A row selection keeps every occurrence of an accepted row, duplicates included, and no occurrence of a rejected one |
| `Cleaning.SelectRows` | main.py:21-23 | Each selection step (`dropna` on three columns, the positivity mask, the outlier mask) yields exactly the filter of its input by its condition |
| `Cleaning.AddDerivedColumns` | main.py:26-27 | Each row gains `Duration (min)` = seconds / 60 and `Date` = departure date; a missing input gives a missing value; the trip itself is unchanged |
| `Cleaning.Clean` | main.py:17-27 | The staged cleaning equals the reference table `CleanTrips`, and it has no more rows than the input |
| `Cleaning.StagesAreConjunction` | main.py:21-23 | Filtering by the three conditions one after the other equals filtering once by their conjunction |
| `Cleaning.SurvivorsAreExactlyValidRows` | main.py:17-23 | A row is in the cleaned table iff it is a coerced input row that has both timestamps and a distance, with distance > 0 and 0 < duration < 36000 |
| `Cleaning.CleanedRowsAreValid` | main.py:21-27 | Every cleaned row has a positive distance, 0 < duration < 36000 s, minutes = seconds / 60 (so strictly between 0 and 600), and `Date` = departure date |
| `Cleaning.CleanedIsOrderedSubsequence` | main.py:21-23 | The cleaned trips are the coerced rows at strictly increasing positions, so there are at most as many as raw rows |
| `Cleaning.NothingDroppedIffAllValid` | main.py:21-23 | The cleaned table is as long as the input iff every input row meets every condition |
| `Cleaning.CleanAppend` | main.py:17-27 | One more raw row appends its cleaned form iff it is valid, and changes nothing otherwise |
| `Cleaning.DurationThreshold` | main.py:22-23 | Once timestamps and a positive distance are present, a row survives iff 0 < duration < 36000. So 35999 s is kept, and 36000 s, 40000 s and a missing duration are dropped. A non-positive distance is dropped |
| `Counting.TallyTotal` | main.py:35-37 | The counts of all distinct values add up to the number of non-missing cells |
| `Counting.SortByCountSorts` | main.py:35-36 | Sorting by count yields non-increasing counts and keeps the values distinct |
| `Counting.SortByDateSorts` | main.py:37 | Sorting entries with distinct dates yields strictly increasing dates |
| `Counting.ValueCounts` | main.py:35-37 | `value_counts()` lists every non-missing value exactly once with its exact count (> 0), non-increasing by count, and the counts sum to the number of non-missing cells |
| `Counting.Head` | main.py:35-36 | `head(n)` is the first n entries, or all of them if there are fewer |
| `Counting.DateCounts` | main.py:37 | `value_counts().sort_index()` on dates lists every date once with its exact count, in strictly ascending date order, and the counts sum to the non-missing cells |
| `Trips.BeforeIsStrictTotalOrder` | main.py:37 | Date order is irreflexive, transitive and total on distinct dates |
| `Dashboard.TopStations` | main.py:35-36 | At most 10 distinct stations with exact, positive, non-increasing counts. An omitted station appears only when 10 are listed, and its count is at most the last listed count |
| `Dashboard.Mean` | main.py:31-32 | The mean is undefined iff no value is present; otherwise mean × count = sum of the present values |
| `Dashboard.Analyze` | main.py:17-37 | The pipeline's summary is the aggregation of the reference cleaned table; the total is at most the number of raw rows |
| `Dashboard.CountsAddUp` | main.py:30-37 | The printed total is the cleaned-table length; the daily counts add up to it; each station ranking adds up to at most it |
| `Dashboard.SingleDepartureStation` | main.py:35 | If every cleaned trip leaves from one station, the departure ranking is exactly that station with count = total trips |
| `Dashboard.NoValidRows` | main.py:21-37 | With no valid row (in particular an empty input), the total is 0, both means are undefined and all views are empty |
| `Dashboard.MeansOfCleanTrips` | main.py:26-32 | The means are undefined iff the cleaned table is empty; otherwise 0 < mean duration < 600 minutes and mean distance > 0 |

## Left out

- Loading the trips file with `pd.read_csv` (lines 13-14) is file I/O. The input is a given sequence of raw rows.
- The timestamp parsing inside `pd.to_datetime(..., errors="coerce")` (lines 17-18) is library behaviour, including how each call infers one format from the first non-missing value of its column. Each column's parser is a function parameter, fixed for the whole column, and the proved properties hold for every choice of the two parsers.
- Rounding of the printed means to two decimals and the console messages (lines 30-32, 84) are display only. The means are modelled over exact `real` arithmetic, with no floating-point rounding of the division by 60 or of the averages.
- Style settings (lines 7-10), the six-panel chart rendering (lines 40-77) and saving the image (lines 80-82) are plotting-library calls and file output.
- Infinite numeric cells are not modelled. `pd.read_csv` reads `inf` and `-inf` as float infinities, and a `real` cannot hold them. An infinite distance passes line 22 and makes the mean distance infinite; the model's distances are finite reals.
- Numeric cells are either a number or missing. A non-numeric text value in the distance or duration column is not modelled; the comparisons on line 22 would raise an error on it.
- The order among stations with equal counts is not promised by `value_counts`. The model breaks ties by first appearance (a stable insertion sort), and no property of `Dashboard.TopStations` depends on it.
- Missing station names are dropped by `value_counts` (its default). This is taken as an assumption. So the station counts add up to the number of named stations, not to the total.
- Date and time values are not validated (month range, time zones). Only the date component and its chronological order matter to the script.
- The in-place updates of the table (`dropna(inplace=True)`, column assignment) are modelled as reassignment of a sequence value, because the table is not shared with anything else.
- The cleaned set is not always a strict subset of the input. The code keeps every row when all rows are valid, and the model follows the code (`Cleaning.NothingDroppedIffAllValid`).
