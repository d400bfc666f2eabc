# covid_plotter, modelled in Dafny

`covid_plotter.py` plots the COVID-19 case counts of one country over time. It reads
the daily reports of the Johns Hopkins CSSE data set, which are CSV files named
`MM-DD-YYYY.csv`. This project models the data path of the script:

- **Dating a report by its file name** (`get_time_from_filename`). The stem of the
  base name is split on `-` and read as month, day and year. The resulting date is
  reported as ISO text and as a day offset from 2020-01-22 (module `SnapshotTime`).
  It relies on models of `int()`, `str.split`, `os.path.basename` and
  `os.path.splitext` (module `Text`) and of the Gregorian day ordinal that Python's
  `datetime` subtraction uses (module `Calendar`).
- **Parsing one report** (`parse_data_file`). The header row is dropped. In every
  other row, the Country field goes through the alias table, and Confirmed,
  Recovered and Deaths become integers; a blank count is 0. The first field that
  is missing or malformed raises (module `Ingest`).
- **Collecting all reports** (`collect_data`). Each report is parsed with the
  alias table `{'Mainland China': 'China', 'Taiwan*': 'Taiwan'}`. The collection
  is all or nothing: one failing report ends the run. The all-or-nothing pattern
  shared with the row loop is the generic `Convert.ConvertAll`.
- **Aggregating one country** (`get_cumulative_data_by_country`). For every
  snapshot, in order, it sums the counts of the rows whose Country is exactly the
  name. It keeps the snapshot's point when its day offset lies within the optional
  inclusive bounds (module `Aggregate`).
- **The plot title** (`get_title`).

Exceptions are values of `Errors.Error`: `IndexError`, a `ValueError` from `int()`,
and a `ValueError` from `datetime()`. Operations that can raise return a `Result`.

Each step-by-step operation of the source is a method proved equal to a specification function:

- `UpdateRow` (the body of the row loop, one field at a time) ↔ `NormaliseRow`
- `NormaliseDataRows` ↔ `ConvertAll` over the data rows
- `ParseDataFile` (dating the name, then calling the row loop) ↔ `ParsedFile`
- `CollectData` ↔ `ConvertAll` over the reports
- `SnapshotTotals` ↔ `Totals`
- `CumulativeByCountry` ↔ `CumulativeSeries`

The lemmas beside each function state what the source promises.

The file system, the CSV reader and the directory listing are parameters: a report
is a `SourceFile`, which holds its path and its rows already split into fields.

## Model

| member | source | states |
|---|---|---|
| Text.ParseIntPadded | covid_plotter.py:40 | `int()` of a zero-padded decimal token such as "03" is its value |
| Text.ParseIntFormat | covid_plotter.py:61-63 | `int(str(n)) == n` for every integer, negative ones included |
| Text.Split | covid_plotter.py:39 | `str.split('-')` yields at least one piece, and no piece contains the separator |
| Text.JoinSplit | covid_plotter.py:39 | joining the pieces of a split with the separator gives back the original text |
| Text.SplitJoin | covid_plotter.py:39 | splitting separator-free pieces joined by the separator gives back exactly those pieces |
| Text.BaseName | covid_plotter.py:39 | `os.path.basename` is the `/`-free suffix after the last `/` |
| Text.StripExtension | covid_plotter.py:39 | `os.path.splitext(...)[0]` is the whole name, or a prefix cut at a dot that has no dot or `/` after it |
| Text.StripExtensionMeaning | covid_plotter.py:39 | `splitext` removes an extension exactly when the last component holds a dot with some character other than a dot before it; so `.bashrc` and `a/..csv` stay whole while `a/.b.csv` loses `.csv` |
| Text.ParseInt | covid_plotter.py:40 | definition of `int()`; its contract is stated by `Text.ParseIntPadded`, `Text.ParseIntFormat` and `Ingest.CountFieldValues` |
| Calendar.FirstOrdinal | covid_plotter.py:43 | the day ordinal of 0001-01-01 is 1, as in `date.toordinal()` |
| Calendar.NextDayOrdinal | covid_plotter.py:43 | consecutive calendar days have consecutive ordinals, so date subtraction counts days |
| Calendar.YearStep | covid_plotter.py:43 | each year adds its own length to the ordinal; leap years add 366 days |
| Calendar.OrdinalIncreasing | covid_plotter.py:43 | an earlier date has a smaller ordinal |
| Calendar.OffsetOrder | covid_plotter.py:43 | day offsets order dates as the calendar does, and equal offsets mean equal dates |
| Calendar.DaysSinceEpoch | covid_plotter.py:43 | definition of `(date - DateTimeEpoch)` in days; its contract is stated by `Calendar.NextDayOrdinal`, `Calendar.OffsetOrder`, `Calendar.OffsetSign` and `Calendar.MarchFifthOffset` |
| Calendar.OffsetSign | covid_plotter.py:14 | the offset is negative exactly before 2020-01-22 and zero exactly on it |
| Calendar.MarchFifthOffset | covid_plotter.py:14 | 2020-03-05 is 43 days after the epoch |
| SnapshotTime.DateFromTokens | covid_plotter.py:40 | fewer than three tokens is IndexError(2); a date is produced only from three integer tokens that form a valid date, read as month, day, year |
| SnapshotTime.TimeFromFilename | covid_plotter.py:38-43 | definition of `get_time_from_filename`; its contract is stated by `SnapshotTime.DateFromTokens`, `SnapshotTime.TimeFromDigitsFileName`, `SnapshotTime.TimeFromUnpaddedFileName`, `SnapshotTime.NonNumericTokenRejected` and the example lemmas |
| SnapshotTime.IsoFormat | covid_plotter.py:41 | `isoformat()` of a midnight datetime is 19 characters long |
| SnapshotTime.IsoFormatFields | covid_plotter.py:41 | the ISO text reads back as year, month and day, with `-` separators and a `T00:00:00` suffix |
| SnapshotTime.BaseNameInDirectory | covid_plotter.py:39 | the base name of a `/`-free file name in any directory is that name |
| SnapshotTime.StripCsv | covid_plotter.py:39 | `splitext` removes a trailing `.csv` |
| SnapshotTime.SplitDateStem | covid_plotter.py:39 | `MM-DD-YYYY` splits into its three fields |
| SnapshotTime.DigitFileTokens | covid_plotter.py:39 | the tokens of `dir/M-D-Y.csv` are its three digit fields, whatever their widths |
| SnapshotTime.DigitTokensDate | covid_plotter.py:40 | digit tokens of any widths, read as month, day and year, make the date they spell, or a `datetime()` ValueError when it does not exist |
| SnapshotTime.TimeFromDigitsFileName | covid_plotter.py:38-43 | every report named `M-D-Y.csv` with decimal fields of any widths, in any directory, is dated month M, day D of year Y with that date's ISO text and offset, or is rejected when the date does not exist |
| SnapshotTime.TimeFromSnapshotFileName | covid_plotter.py:38-43 | the same for the conventional zero-padded `MM-DD-YYYY.csv` names |
| SnapshotTime.TimeFromUnpaddedFileName | covid_plotter.py:38-43 | the same for names written as `str()` writes the numbers, such as `3-5-2020.csv` |
| SnapshotTime.SnapshotFileNameDays | covid_plotter.py:38-43 | a conventional name of a calendar date is dated with that date's offset from the epoch |
| SnapshotTime.SnapshotFileNameRejected | covid_plotter.py:40 | a conventional name of a date the calendar does not have is a `datetime()` ValueError |
| SnapshotTime.EpochFileOffset | covid_plotter.py:38-43 | `01-22-2020.csv` is day 0 |
| SnapshotTime.MarchFifthFileOffset | covid_plotter.py:38-43 | `03-05-2020.csv` is day 43 |
| SnapshotTime.MonthThirteenRejected | covid_plotter.py:40 | `13-01-2020.csv` is a `datetime()` ValueError |
| SnapshotTime.FebruaryThirtiethRejected | covid_plotter.py:40 | `02-30-2020.csv` is a `datetime()` ValueError, because February 2020 has 29 days |
| SnapshotTime.NonNumericTokenRejected | covid_plotter.py:40 | a month, day or year token that is not an integer is an `int()` ValueError naming the first failing token in the order year, month, day |
| Convert.ConvertAll | covid_plotter.py:78-82 | a successful conversion has one result per input |
| Convert.ConvertAllSuccess | covid_plotter.py:78-82 | the conversion succeeds exactly when every element converts, and then holds each element's result at that element's position |
| Convert.ConvertAllFailure | covid_plotter.py:84-86 | a failed conversion carries the error of the first element that fails, and every earlier element converted |
| Convert.ConvertAllFailureExtends | covid_plotter.py:84-86 | once a prefix fails, no later element changes the outcome |
| Convert.ConvertAllStops | covid_plotter.py:78-86 | an element that fails after the earlier ones converted ends the whole conversion with its own error |
| Ingest.Alias | covid_plotter.py:60 | definition of `country_name_map.get(name, name)`; its contract is stated by `Ingest.AliasIdempotent` and `Ingest.CountryNameMapProperties` |
| Ingest.AliasIdempotent | covid_plotter.py:60 | `map.get(name, name)` applied twice equals applying it once, when no alias target is itself aliased |
| Ingest.CountryNameMapProperties | covid_plotter.py:71 | the table maps "Mainland China" to "China" and "Taiwan*" to "Taiwan", leaves every other name alone, and is idempotent |
| Ingest.CountField | covid_plotter.py:61-63 | definition of `int(text) if len(text) > 0 else 0`; its contract is stated by `Ingest.CountFieldValues` |
| Ingest.CountFieldValues | covid_plotter.py:61-63 | a blank count is 0, the decimal text of an integer is that integer, and any other text is a ValueError naming it |
| Ingest.NormaliseRow | covid_plotter.py:60-63 | definition of one row's update; its contract is stated by `Ingest.NormaliseRowShape`, and `Ingest.UpdateRow` is proved equal to it |
| Ingest.NormaliseRowShape | covid_plotter.py:59-64 | a row normalises exactly when it has six fields and three well-formed counts; the result has the same length, only Country and the three counts change, and a short row fails with IndexError on the first of Country, Confirmed, Recovered it lacks, unless a malformed Confirmed count raises its ValueError first |
| Ingest.UpdateRow | covid_plotter.py:60-63 | the field-by-field update produces exactly the normalised row, or the error of the first field that fails, in the order Country, Confirmed, Recovered, Deaths |
| Ingest.NormaliseDataRows | covid_plotter.py:55-66 | the reader loop drops the header and normalises every later row in order; the first failing row is the error |
| Ingest.ParseDataFile | covid_plotter.py:46-67 | the file name is dated before any row is read, and the report is that date with the normalised rows |
| Ingest.ParsedFile | covid_plotter.py:46-67 | definition of `parse_data_file`; its contract is stated by `Ingest.ParsedFileDate`, `Ingest.ParsedFileRows`, `Ingest.ParsedFileRowFailure` and `Ingest.ParsedFileWellFormed` |
| Ingest.ParsedFileDate | covid_plotter.py:48 | a bad file name fails the report with its own error, before any row is looked at; a parsed report carries the file name's date |
| Ingest.ParsedFileRows | covid_plotter.py:56-66 | with a good name, a report parses exactly when every row after the header normalises; it then has one row per later row, each the normalisation of that row, in file order |
| Ingest.ParsedFileRowFailure | covid_plotter.py:58-64 | a failing report's error is that of its first failing data row |
| Ingest.ParsedFileWellFormed | covid_plotter.py:60-64 | every row of a parsed report has a text Country and three integer counts |
| Ingest.CollectData | covid_plotter.py:69-86 | collecting is parsing every report in listing order, all or nothing |
| Ingest.CollectedDataShape | covid_plotter.py:77-86 | the collection succeeds exactly when every report parses, holds report i's data at position i, and otherwise fails with the first failing report's error |
| Ingest.CollectedDataWellFormed | covid_plotter.py:78-80 | every row of collected data has a text Country and three integer counts |
| Aggregate.CollectedDataAggregable | covid_plotter.py:95-99 | collected data can be aggregated for any country without an IndexError or TypeError |
| Aggregate.Totals | covid_plotter.py:92-99 | definition of one snapshot's totals; its contract is stated by `Aggregate.TotalsAppend`, `Aggregate.TotalsPermutation`, `Aggregate.TotalsSingle` and `Aggregate.TotalsNoMatch` |
| Aggregate.TotalsAppend | covid_plotter.py:95-99 | the totals of two runs of rows are the sum of their totals |
| Aggregate.SumPermutation | covid_plotter.py:95-99 | a sum of tallies does not depend on the order of its terms: sequences with the same multiset of elements have the same sum |
| Aggregate.TotalsPermutation | covid_plotter.py:95-99 | any reordering of a snapshot's rows (the same multiset of rows) leaves its totals unchanged |
| Aggregate.TotalsSwap | covid_plotter.py:95-99 | exchanging two runs of a snapshot's rows leaves its totals unchanged, as a corollary of `Aggregate.TotalsPermutation` |
| Aggregate.TotalsSingle | covid_plotter.py:96-99 | a row adds its own three counts when its Country equals the name, and nothing otherwise |
| Aggregate.TotalsNoMatch | covid_plotter.py:92-99 | a snapshot with no row for the country totals 0, 0, 0 |
| Aggregate.SelectedIndices | covid_plotter.py:101-102 | the positions kept are exactly the in-range snapshots, strictly increasing |
| Aggregate.CumulativeSeries | covid_plotter.py:88-105 | definition of the series; its contract is stated by `Aggregate.SeriesSelection`, `Aggregate.SeriesUnbounded`, `Aggregate.SeriesSingleDay`, `Aggregate.SeriesNoDay` and `Aggregate.SeriesSingleDayAtMostOne` |
| Aggregate.SeriesSelection | covid_plotter.py:88-105 | the result holds one point per in-range snapshot, in snapshot order, each with that snapshot's date and totals |
| Aggregate.SeriesUnbounded | covid_plotter.py:101-103 | without bounds there is one point per snapshot, zero totals included |
| Aggregate.SeriesSingleDay | covid_plotter.py:101-102 | with `min_day == max_day == d`, every point kept is dated day d |
| Aggregate.SeriesNoDay | covid_plotter.py:101-102 | with `min_day == max_day == d` and no snapshot on day d, the result is empty |
| Aggregate.SeriesSingleDayAtMostOne | covid_plotter.py:101-103 | with `min_day == max_day`, at most one point is kept when no two snapshots share a day |
| Aggregate.SnapshotTotals | covid_plotter.py:92-99 | the inner loop's three running sums are the snapshot's totals for the country |
| Aggregate.CumulativeByCountry | covid_plotter.py:88-105 | the outer loop builds exactly the specified series |
| Aggregate.Title | covid_plotter.py:132-141 | the title is "Total ", then the country, then " Cases", whatever the bounds |
| Aggregate.TitleIdentifiesCountry | covid_plotter.py:133 | two titles are equal exactly when their countries are |

## Left out

- Command-line parsing (`parse_command_line`), the `__main__` block, and the help text: they are I/O.
- `glob.glob`, `open` and `csv.reader`: a report is given as its path and its rows already split into fields. The order of the reports is the listing's order, whatever that is.
- The `print` and `sys.exit(-1)` in `collect_data`'s handler: the model returns the error instead.
- `plot_data` draws with matplotlib and is not modelled.
- `get_cumulative_data_by_province` is an empty stub.
- The second parse of the file name inside `parse_data_file` (lines 51-53) is not modelled. Its result is unused, and it cannot fail once line 48 succeeded.
- `SnapshotTime.TimeFromFilename`: the offset is an integer. The source divides `total_seconds()` by 86400 and gets a float, which is whole because every datetime is at midnight.
- `Text.ParseInt`: accepts only an optional sign followed by ASCII digits. `int()` also accepts surrounding whitespace, `_` between digits and non-ASCII decimal digits. Such fields are errors in the model. Conversely, Python 3.11 and later reject texts of more than 4300 digits, which the model accepts.
- `Ingest.CountField`: inherits the narrower `int()` of `Text.ParseInt`.
- A year, month or day token outside the C int range (such as `2147483648-01-2020.csv`) makes `datetime()` raise OverflowError rather than ValueError. The model reports it as the `datetime()` ValueError (`Errors.DateOutOfRange`), like every other out-of-range field.
- `Text.BaseName` and `Text.StripExtension` follow POSIX `os.path` (only `/` separates directories).
- `Aggregate.CumulativeByCountry`: requires that every row has a Country field and every matching row has its three counts. On other data the source raises IndexError or TypeError. Collected data always meets this requirement (`Aggregate.CollectedDataAggregable`).
- `Aggregate.Contribution` is total: a matching row without counts contributes nothing. The loop never reaches such a row under the requirement above.
- Updating the reader's row lists in place is modelled on values. Nothing else holds those lists, so no aliasing is lost.
- The script has none of the following, and the model adds none:
  - No report-schema detection: every report is read with the fixed columns 0-5.
  - No byte-order-mark handling.
  - Negative counts are accepted.
  - No sorting of snapshots by date.
  - No guarantee of one point per day: two reports that date to the same day give two points (`Aggregate.SeriesSingleDayAtMostOne` needs distinct days).
