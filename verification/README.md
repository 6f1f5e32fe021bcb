# SENAMHI station scrapers — a verified model

This project models the data-reshaping core of the PeHMeteoN scrapers for
the station network of SENAMHI, the Peruvian meteorological and
hydrological service. The scrapers come in three families:

- **Real-time scraper, first version.** Found in
  `PE_SENAMHI_HIDROMETEOROLOGY/src/pe_senamhi_hidrometeorology/senh_hydrometeo.py`. It covers:
  - looking a station up by code in the metadata list;
  - classifying it by its network flag `ico` (M meteorological, H hydrological) and its mode flag `estado` (DIFERIDO, REAL, AUTOMATICA);
  - reading its altitude off the station page;
  - selecting and naming the raw data table for one month;
  - completing the month onto a daily or hourly grid;
  - the `try`/fallback of `download_data`;
  - the month enumeration of `download_data_range`.
- **Real-time scraper, second version.** Found in `PE_SENAMHI_HIDROMETEOROLOGY2/senh_hydrometeo.py`. It has the same shape but differs in:
  - where classification happens;
  - which column it filters on;
  - its range loop, which always downloads one fixed month.
- **Historic archive scrapers.** Found in `phd_scraper/se_historic.py` (`download`) and `PE_SENAMHI_HISTORIC/senh_hist.py` (`download_data`). They:
  - clean the chart script of the archive page;
  - cut it into bracketed arrays;
  - read the year categories and the PREC, TX and TN series;
  - rebuild a daily `DATE` column from the years (`generate_date`).
- **Template `fib`.** Found in `skeleton.py`, with the values its tests fix.

## Modules

One module per file, each importing the ones below it:

- Utilities:
  - `Wrappers`: `Option`, `Result` and the error kinds.
  - `Text`: Python's `split`, `join`, `replace` and slicing on strings.
  - `Calendar`: Gregorian dates, day numbers and `pd.date_range`.
  - `DateText`: `strptime`/`strftime` for the formats the scrapers use.
- Station metadata:
  - `Stations`: lookup and `gaugestation_clasification`.
  - `Altitude`: `add_altitude`.
  - `Frames`: the raw tables and `data_senamhi_realtime`'s choice of table.
- Monthly completion:
  - `Merge`: the outer merge of observed rows onto a time grid.
  - `Majority`: the most frequent year-month.
  - `Completion`: `complete_monthly_data`.
- Real-time downloads:
  - `Realtime`: `download_data` of the first version.
  - `RealtimeRange`: `download_data_range` of the first version.
  - `Realtime2`: the second version.
- Historic archive:
  - `ArchiveDates`: `generate_date`.
  - `ArchiveScript`: the chart script.
  - `ArchiveTable`: the two archive downloads.
- `Skeleton`: `fib`.

## What the external world becomes

- **Metadata.** A pickled station metadata file is a `seq<StationRecord>`. The real-time model takes one such list, `db`, for both the lookup and the classification; see `Realtime.DownloadData` under "## Left out".
- **The network.**
  - The station page and the data page are functions in a `Service` value: from the query to the parsed cells, or `None` when the request fails.
  - The archive page is given as its list of script texts.
- **Value parsing.**
  - `pd.to_datetime` on a `fecha` cell is an injected `parse` function with three outcomes: a date, NaT, or an error.
  - `float()` on a chart token is an injected predicate `isFloat`. A value is kept as the token text it was read from.
- **File writes.** A CSV write is the `(file name, table)` pair a method returns in its `written` output.

## Model

| member | source | states |
|---|---|---|
| `Stations.Lookup` | PE_SENAMHI_HIDROMETEOROLOGY/src/pe_senamhi_hidrometeorology/senh_hydrometeo.py:143-146 | A found record is in the list and has exactly the requested code; any failure is the duplicated-code error |
| `Stations.LookupExactlyOne` | PE_SENAMHI_HIDROMETEOROLOGY/src/pe_senamhi_hidrometeorology/senh_hydrometeo.py:308-311 | Lookup succeeds if and only if exactly one record carries the code, and then returns that record; zero matches fail like several (the same filter at lines 122-124 and in the second version at 128-131) |
| `Stations.GaugestationClasification` | PE_SENAMHI_HIDROMETEOROLOGY/src/pe_senamhi_hidrometeorology/senh_hydrometeo.py:130-175 | A failed lookup propagates; an unknown `ico` is `UnknownIco` and, with a known `ico`, an unknown `estado` is `UnknownEstado`. With `return_type` the result succeeds exactly when the class has a column list and is that list (`ColumnsByFlags` gives each one); (`H`, `AUTOMATICA`) fails with `MissingSchema`. Without it the result succeeds exactly when both flags are known, and it is the class identifier, one of the six, from which `FlagsOf` gives back the station's own (`ico`, `estado`) |
| `Stations.ClassesCovered` | PE_SENAMHI_HIDROMETEOROLOGY/src/pe_senamhi_hidrometeorology/senh_hydrometeo.py:156-170 | An `ico` other than M/H raises the `ico` error; a known `ico` with an `estado` other than DIFERIDO/REAL/AUTOMATICA raises the `estado` error; both known give one of the six identifiers, and any column list found starts with `DATE` |
| `Stations.StationClassInjective` | PE_SENAMHI_HIDROMETEOROLOGY/src/pe_senamhi_hidrometeorology/senh_hydrometeo.py:156-175 | The identifier `var_01_var_02` determines the flags it was built from: decoding it gives back exactly `(ico, estado)` |
| `Stations.ColumnsByFlags` | PE_SENAMHI_HIDROMETEOROLOGY/src/pe_senamhi_hidrometeorology/senh_hydrometeo.py:148-154 | Each flag pair's column list, with the meteorological manual modes sharing one list, and (H, AUTOMATICA) failing the dictionary lookup because `hidro_automatic` is not a key (the same table in the second version at lines 37-61) |
| `Altitude.AltitudeQuery` | PE_SENAMHI_HIDROMETEOROLOGY/src/pe_senamhi_hidrometeorology/senh_hydrometeo.py:185-188 | The station-page query carries `cod`, `estado`, `tipo_esta` and `cate` in that order, and carries `cod_old` if and only if the mode is not AUTOMATICA |
| `Altitude.LastAltitude` | PE_SENAMHI_HIDROMETEOROLOGY/src/pe_senamhi_hidrometeorology/senh_hydrometeo.py:191-195 | No altitude exactly when no non-empty cell mentions `msnm`; otherwise the first space-separated word of a mentioning cell after which no cell mentions `msnm` |
| `Altitude.LaterMentionWins` | PE_SENAMHI_HIDROMETEOROLOGY/src/pe_senamhi_hidrometeorology/senh_hydrometeo.py:191-194 | Once a later stretch of cells mentions `msnm`, earlier cells no longer affect the altitude: the loop overwrites `alt` |
| `Altitude.SkipsUnmentioned` | PE_SENAMHI_HIDROMETEOROLOGY/src/pe_senamhi_hidrometeorology/senh_hydrometeo.py:192-194 | A final cell that does not mention `msnm` leaves the altitude as the cells before it give it |
| `Altitude.AddAltitude` | PE_SENAMHI_HIDROMETEOROLOGY2/senh_hydrometeo.py:71-75 | The cell loop, with `alt` overwritten at each mentioning cell, returns the last mention's altitude as characterised above |
| `Frames.FrameFromRows` | PE_SENAMHI_HIDROMETEOROLOGY/src/pe_senamhi_hidrometeorology/senh_hydrometeo.py:230 | `pd.DataFrame(rows, columns=cols)` succeeds if and only if there are no rows or the widest row has exactly as many cells as there are names; shorter rows are padded with absent cells and every present cell is kept in place |
| `Frames.SelectTable` | PE_SENAMHI_HIDROMETEOROLOGY/src/pe_senamhi_hidrometeorology/senh_hydrometeo.py:219-241 | The raw table is the second table with 1 header row dropped for AUTOMATICA and 2 otherwise, under the raw names starting with `fecha`; it is built if and only if no row is wider or all narrower than the raw names, and then each kept row's cells stand in place with absent cells as padding; an unknown `ico` and a page with fewer than two tables are errors |
| `Frames.RawWidths` | PE_SENAMHI_HIDROMETEOROLOGY/src/pe_senamhi_hidrometeorology/senh_hydrometeo.py:227-240 | The raw layouts have 7, 4 and 5 columns for meteorological automatic, hydrological automatic and any manual mode |
| `Merge.MergeJoin` | PE_SENAMHI_HIDROMETEOROLOGY/src/pe_senamhi_hidrometeorology/senh_hydrometeo.py:283-288 | The outer merge holds, as a multiset, exactly the observed rows plus one blank row for every grid slot no row fills |
| `Merge.MergeJoinSorted` | PE_SENAMHI_HIDROMETEOROLOGY/src/pe_senamhi_hidrometeorology/senh_hydrometeo.py:262-267 | The merged rows come out ordered by time stamp |
| `Merge.MergeCovers` | PE_SENAMHI_HIDROMETEOROLOGY/src/pe_senamhi_hidrometeorology/senh_hydrometeo.py:283-288 | Every grid slot appears in the merged rows |
| `Merge.MergeKeeps` | PE_SENAMHI_HIDROMETEOROLOGY/src/pe_senamhi_hidrometeorology/senh_hydrometeo.py:267 | Every observed row survives the merge, including rows outside the grid (`how='outer'`) |
| `Merge.MergeBlankRow` | PE_SENAMHI_HIDROMETEOROLOGY/src/pe_senamhi_hidrometeorology/senh_hydrometeo.py:267 | A merged row that was not observed is a grid slot no observation has, with every value absent |
| `Merge.MergeLength` | PE_SENAMHI_HIDROMETEOROLOGY/src/pe_senamhi_hidrometeorology/senh_hydrometeo.py:283-288 | The merge has as many rows as were observed plus the number of unfilled slots |
| `Merge.SortObs` | PE_SENAMHI_HIDROMETEOROLOGY/src/pe_senamhi_hidrometeorology/senh_hydrometeo.py:288 | The observed rows put in time order are sorted and a permutation of the input |
| `Majority.Mode` | PE_SENAMHI_HIDROMETEOROLOGY/src/pe_senamhi_hidrometeorology/senh_hydrometeo.py:255 | `.mode()[0]` fails on no rows; otherwise it is a key of greatest count, and among those the smallest |
| `Majority.FirstModeUnique` | PE_SENAMHI_HIDROMETEOROLOGY/src/pe_senamhi_hidrometeorology/senh_hydrometeo.py:255 | The first mode is unique: two keys that both qualify are equal |
| `Majority.MajorityMonth` | PE_SENAMHI_HIDROMETEOROLOGY/src/pe_senamhi_hidrometeorology/senh_hydrometeo.py:275-276 | The grid month is one of the rows' year-months, and it fails only when there are no rows |
| `Majority.MajorityMonthIsMostFrequent` | PE_SENAMHI_HIDROMETEOROLOGY/src/pe_senamhi_hidrometeorology/senh_hydrometeo.py:255-256 | No row's year-month occurs more often than the chosen one |
| `Completion.ClassSuffixOfStation` | PE_SENAMHI_HIDROMETEOROLOGY/src/pe_senamhi_hidrometeorology/senh_hydrometeo.py:249 | The suffix after the last `_` of a station's class is `deferred`, `realtime` or `automatic` according to its `estado` |
| `Completion.DailyGrid` | PE_SENAMHI_HIDROMETEOROLOGY/src/pe_senamhi_hidrometeorology/senh_hydrometeo.py:277-286 | The daily grid has days-in-month entries in increasing order, and holds exactly the days of that month at midnight |
| `Completion.HourlyGridShape` | PE_SENAMHI_HIDROMETEOROLOGY/src/pe_senamhi_hidrometeorology/senh_hydrometeo.py:257-265 | The hourly grid has 24 times days-in-month instants, from day 1 at 00:00 to the last day at 23:00 |
| `Completion.HourlyGridMembers` | PE_SENAMHI_HIDROMETEOROLOGY/src/pe_senamhi_hidrometeorology/senh_hydrometeo.py:259-265 | The hourly grid holds exactly the whole hours of the days of that month |
| `Completion.CompleteDaily` | PE_SENAMHI_HIDROMETEOROLOGY/src/pe_senamhi_hidrometeorology/senh_hydrometeo.py:273-289 | Daily completion succeeds exactly when there is at least one row (the mode of no rows fails) |
| `Completion.DailySorted` | PE_SENAMHI_HIDROMETEOROLOGY/src/pe_senamhi_hidrometeorology/senh_hydrometeo.py:282-288 | The completed daily rows are in date order |
| `Completion.DailyCovers` | PE_SENAMHI_HIDROMETEOROLOGY/src/pe_senamhi_hidrometeorology/senh_hydrometeo.py:277-288 | Every day of the majority month has a row |
| `Completion.DailyKeeps` | PE_SENAMHI_HIDROMETEOROLOGY/src/pe_senamhi_hidrometeorology/senh_hydrometeo.py:283-288 | Every observed row is kept unchanged, also when it lies outside the majority month |
| `Completion.DailyOnlyBlanks` | PE_SENAMHI_HIDROMETEOROLOGY/src/pe_senamhi_hidrometeorology/senh_hydrometeo.py:288 | A row that was not observed is a day of the majority month that no row has, with every value absent |
| `Completion.DailyOrigin` | PE_SENAMHI_HIDROMETEOROLOGY/src/pe_senamhi_hidrometeorology/senh_hydrometeo.py:283-288 | Every completed daily row is an observed row or a blank day of the majority month |
| `Completion.HourlyObs` | PE_SENAMHI_HIDROMETEOROLOGY/src/pe_senamhi_hidrometeorology/senh_hydrometeo.py:252-254 | Joining `DATE` and `HOUR` succeeds if and only if every row's hour reads as `HH:MM`, and gives each row its time stamp with the remaining values |
| `Completion.CompleteHourly` | PE_SENAMHI_HIDROMETEOROLOGY/src/pe_senamhi_hidrometeorology/senh_hydrometeo.py:250-272 | Hourly completion succeeds if and only if there is an `HOUR` column, at least one row and every hour reads; without the column it is a missing-column error |
| `Completion.HourlySorted` | PE_SENAMHI_HIDROMETEOROLOGY/src/pe_senamhi_hidrometeorology/senh_hydrometeo.py:262-271 | The completed hourly rows are in date order |
| `Completion.HourlyCovers` | PE_SENAMHI_HIDROMETEOROLOGY/src/pe_senamhi_hidrometeorology/senh_hydrometeo.py:259-268 | Every hour of every day of the majority month has a row whose `HOUR` is that hour written `HH:MM:SS` |
| `Completion.HourlyKeeps` | PE_SENAMHI_HIDROMETEOROLOGY/src/pe_senamhi_hidrometeorology/senh_hydrometeo.py:262-271 | Every observed row is kept, re-split into `DATE` and `HOUR` |
| `Completion.HourlyOnlyBlanks` | PE_SENAMHI_HIDROMETEOROLOGY/src/pe_senamhi_hidrometeorology/senh_hydrometeo.py:267-271 | A row that matches no observation is a whole hour of the majority month that no row has, with every value absent |
| `Completion.HourlyOrigin` | PE_SENAMHI_HIDROMETEOROLOGY/src/pe_senamhi_hidrometeorology/senh_hydrometeo.py:262-271 | Every completed hourly row is an observed row or a blank whole hour of the majority month |
| `Completion.CompleteMonthlyData` | PE_SENAMHI_HIDROMETEOROLOGY/src/pe_senamhi_hidrometeorology/senh_hydrometeo.py:243-291 | The suffix `automatic` completes hourly, `realtime` and `deferred` complete daily, any other suffix raises; a success had rows, and its rows keep the table's width |
| `Completion.DailyWellFormed` | PE_SENAMHI_HIDROMETEOROLOGY/src/pe_senamhi_hidrometeorology/senh_hydrometeo.py:273-289 | Daily completion keeps every row valid and of the table's width |
| `Completion.HourlyWellFormed` | PE_SENAMHI_HIDROMETEOROLOGY/src/pe_senamhi_hidrometeorology/senh_hydrometeo.py:250-272 | Hourly completion keeps every row valid and of the table's width |
| `DateText.IsoDateRoundTrip` | PE_SENAMHI_HIDROMETEOROLOGY/src/pe_senamhi_hidrometeorology/senh_hydrometeo.py:328 | `strptime(..., "%Y-%m-%d")` reads back every four-digit-year date that `strftime('%Y-%m-%d')` writes |
| `DateText.SpacePaddedDay` | PE_SENAMHI_HIDROMETEOROLOGY/src/pe_senamhi_hidrometeorology/senh_hydrometeo.py:328 | `strptime`'s `%d` reads a space followed by a digit from 1 to 9 as the same day as the zero-padded form |
| `DateText.SpacePaddedExample` | PE_SENAMHI_HIDROMETEOROLOGY/src/pe_senamhi_hidrometeorology/senh_hydrometeo.py:328 | `2019-03- 5` is read as 5 March 2019 |
| `DateText.PeriodRoundTrip` | PE_SENAMHI_HIDROMETEOROLOGY/src/pe_senamhi_hidrometeorology/senh_hydrometeo.py:329 | The period token is six digits, the year followed by the zero-padded month, and both read back from it |
| `DateText.MonthKeyRoundTrip` | PE_SENAMHI_HIDROMETEOROLOGY/src/pe_senamhi_hidrometeorology/senh_hydrometeo.py:255-256 | Splitting the `'%s_%02d'` key on `_` and reading both parts gives back the year and month |
| `DateText.MonthKeyInjective` | PE_SENAMHI_HIDROMETEOROLOGY/src/pe_senamhi_hidrometeorology/senh_hydrometeo.py:255 | Two months with the same key are the same month, so counting keys counts months |
| `DateText.ClockRoundTrip` | PE_SENAMHI_HIDROMETEOROLOGY/src/pe_senamhi_hidrometeorology/senh_hydrometeo.py:252-253 | An `HH:MM` hour cell reads back as the time of day it writes |
| `Realtime.DataQuery` | PE_SENAMHI_HIDROMETEOROLOGY/src/pe_senamhi_hidrometeorology/senh_hydrometeo.py:204-213 | The data-page query has seven fields, with the period as `CBOFiltro`, the altitude as `alt`, and `cod_old` empty when the record has none |
| `Realtime.ReadFechas` | PE_SENAMHI_HIDROMETEOROLOGY/src/pe_senamhi_hidrometeorology/senh_hydrometeo.py:335 | `pd.to_datetime` of the `fecha` column fails if and only if some cell is unreadable; otherwise each row gets the date its cell reads as, or NaT |
| `Realtime.Cleaned` | PE_SENAMHI_HIDROMETEOROLOGY/src/pe_senamhi_hidrometeorology/senh_hydrometeo.py:337 | `replace({'S/D': NaN})` makes exactly the `S/D` cells absent and keeps every other cell |
| `Realtime.Fallback` | PE_SENAMHI_HIDROMETEOROLOGY/src/pe_senamhi_hidrometeorology/senh_hydrometeo.py:343-347 | The fallback has one row per calendar day of the month, in order, with `DATE` set and every other column absent |
| `Realtime.KeepDate` | PE_SENAMHI_HIDROMETEOROLOGY/src/pe_senamhi_hidrometeorology/senh_hydrometeo.py:349-350 | The `specific` filter keeps exactly the rows whose `DATE` equals the requested date |
| `Realtime.AltitudeOf` | PE_SENAMHI_HIDROMETEOROLOGY/src/pe_senamhi_hidrometeorology/senh_hydrometeo.py:313-325 | The altitude exists if and only if the station page answers and has an `msnm` cell, and is the last such cell's value |
| `Realtime.DownloadData` | PE_SENAMHI_HIDROMETEOROLOGY/src/pe_senamhi_hidrometeorology/senh_hydrometeo.py:293-351 | A success had one station record and a readable date, and its columns are the station's column list; a failed lookup is the duplicated-code error; the `try` is stated by `Realtime.TryFailsGivesEmptyMonth` and `Realtime.TrySucceedsGivesItsRecords` |
| `Realtime.ClassificationOutsideTry` | PE_SENAMHI_HIDROMETEOROLOGY/src/pe_senamhi_hidrometeorology/senh_hydrometeo.py:332 | A classification error propagates unchanged, because the classification runs before the `try` |
| `Realtime.HidroAutomaticRaises` | PE_SENAMHI_HIDROMETEOROLOGY/src/pe_senamhi_hidrometeorology/senh_hydrometeo.py:332 | A hydrological automatic station always fails with the missing-schema error |
| `Realtime.TryFailsGivesEmptyMonth` | PE_SENAMHI_HIDROMETEOROLOGY/src/pe_senamhi_hidrometeorology/senh_hydrometeo.py:333-351 | Once the lookup, the altitude, the date and the column list succeed, any failure inside the `try` gives the empty month under the station's columns, all its days or only the requested one |
| `Realtime.TrySucceedsGivesItsRecords` | PE_SENAMHI_HIDROMETEOROLOGY/src/pe_senamhi_hidrometeorology/senh_hydrometeo.py:333-350 | When the `try` succeeds, the result is its records under the station's columns, cut to the requested day when `specific` is set |
| `Realtime.HidroDeferredFallsBack` | PE_SENAMHI_HIDROMETEOROLOGY/src/pe_senamhi_hidrometeorology/senh_hydrometeo.py:336 | A hydrological deferred station always gets the empty month: four names cannot be given to five raw columns |
| `Realtime.RenamingNeedsRawWidth` | PE_SENAMHI_HIDROMETEOROLOGY/src/pe_senamhi_hidrometeorology/senh_hydrometeo.py:336 | Renaming the raw columns fails whenever the column list and the raw layout differ in width |
| `Realtime.DataPageDownGivesEmptyMonth` | PE_SENAMHI_HIDROMETEOROLOGY/src/pe_senamhi_hidrometeorology/senh_hydrometeo.py:333-347 | When the data page never answers, the result is the empty month under the station's columns |
| `Realtime.EmptyMonthSpecific` | PE_SENAMHI_HIDROMETEOROLOGY/src/pe_senamhi_hidrometeorology/senh_hydrometeo.py:344-350 | The empty month cut to the requested day is exactly one blank row for that day |
| `Realtime.SpecificKeepsRequestedDay` | PE_SENAMHI_HIDROMETEOROLOGY/src/pe_senamhi_hidrometeorology/senh_hydrometeo.py:349-350 | With `specific`, every returned row is dated the requested day |
| `Realtime.MarkerNeverSurvives` | PE_SENAMHI_HIDROMETEOROLOGY/src/pe_senamhi_hidrometeorology/senh_hydrometeo.py:337-347 | No returned cell is `S/D`, on every path: cleaned rows, completed rows and the fallback |
| `RealtimeRange.MonthRange` | PE_SENAMHI_HIDROMETEOROLOGY/src/pe_senamhi_hidrometeorology/senh_hydrometeo.py:365-367 | `pd.date_range(freq='MS')` succeeds if and only if both dates read and lie in the Timestamp range; an unreadable start is a parse error |
| `RealtimeRange.RangeDates` | PE_SENAMHI_HIDROMETEOROLOGY/src/pe_senamhi_hidrometeorology/senh_hydrometeo.py:365-371 | With `specific` the only date is the start date; otherwise the month starts written `%Y-%m-%d`, one per month start |
| `RealtimeRange.RangeTextsAreMonthStarts` | PE_SENAMHI_HIDROMETEOROLOGY/src/pe_senamhi_hidrometeorology/senh_hydrometeo.py:365-371 | Every enumerated date is a first of month between the start and end dates |
| `RealtimeRange.MonthStartsAreProcessed` | PE_SENAMHI_HIDROMETEOROLOGY/src/pe_senamhi_hidrometeorology/senh_hydrometeo.py:365-371 | Every first of month between the start and end dates is enumerated |
| `RealtimeRange.PartialFirstMonthSkipped` | PE_SENAMHI_HIDROMETEOROLOGY/src/pe_senamhi_hidrometeorology/senh_hydrometeo.py:365-367 | A start date after the 1st leaves its own month out of the range |
| `RealtimeRange.MonthFrames` | PE_SENAMHI_HIDROMETEOROLOGY/src/pe_senamhi_hidrometeorology/senh_hydrometeo.py:377-379 | One download per enumerated date, in order |
| `RealtimeRange.DownloadDataRange` | PE_SENAMHI_HIDROMETEOROLOGY/src/pe_senamhi_hidrometeorology/senh_hydrometeo.py:353-386 | A bad range propagates its error; unless `quiet`, a lookup failure in `show_message` stops the run; otherwise the result is the concatenation of the monthly downloads |
| `RealtimeRange.DownloadMonths` | PE_SENAMHI_HIDROMETEOROLOGY/src/pe_senamhi_hidrometeorology/senh_hydrometeo.py:376-380 | The accumulating loop gives the stacked monthly frames: the first failing month's error, or all rows in month order |
| `RealtimeRange.StackedStep` | PE_SENAMHI_HIDROMETEOROLOGY/src/pe_senamhi_hidrometeorology/senh_hydrometeo.py:380 | One more month appends its rows after those gathered so far, or stops with its error |
| `RealtimeRange.DownloadAllEachMonth` | PE_SENAMHI_HIDROMETEOROLOGY/src/pe_senamhi_hidrometeorology/senh_hydrometeo.py:377-380 | A successful range had every month succeed, and its columns are the station's column list |
| `RealtimeRange.DownloadAllPrefix` | PE_SENAMHI_HIDROMETEOROLOGY/src/pe_senamhi_hidrometeorology/senh_hydrometeo.py:377-380 | The rows of the first months come first, in order: concatenation preserves month order |
| `RealtimeRange.SpecificDownloadsStartOnly` | PE_SENAMHI_HIDROMETEOROLOGY/src/pe_senamhi_hidrometeorology/senh_hydrometeo.py:368-369 | With `specific` the range result is the single download of the start date |
| `Realtime2.FromTables2` | PE_SENAMHI_HIDROMETEOROLOGY2/senh_hydrometeo.py:99-113 | A frame read from the page carries the raw column names of its layout |
| `Realtime2.FromRaw2` | PE_SENAMHI_HIDROMETEOROLOGY2/senh_hydrometeo.py:155 | Rewriting `fecha` succeeds if and only if every cell reads, keeps the raw names and one record per row |
| `Realtime2.FromRaw2Rows` | PE_SENAMHI_HIDROMETEOROLOGY2/senh_hydrometeo.py:155 | Each record keeps its raw values, and its `fecha` becomes the date written `%Y-%m-%d`, or `nan` for NaT |
| `Realtime2.MarkerSurvives` | PE_SENAMHI_HIDROMETEOROLOGY2/senh_hydrometeo.py:153-155 | This version does not replace `S/D`: an `S/D` cell in the raw table is still in the result |
| `Realtime2.DownloadData2` | PE_SENAMHI_HIDROMETEOROLOGY2/senh_hydrometeo.py:115-164 | A success had one record, an altitude and a readable date; a failed lookup is the duplicated-code error |
| `Realtime2.TryKeepsRawNames` | PE_SENAMHI_HIDROMETEOROLOGY2/senh_hydrometeo.py:153-155 | When the `try` succeeds the result keeps the raw names, starting with `fecha` |
| `Realtime2.ExceptClassifies` | PE_SENAMHI_HIDROMETEOROLOGY2/senh_hydrometeo.py:156-163 | When the `try` fails: a classification error escapes from the `except`; with `specific` the filter on the missing `fecha` column fails; otherwise the empty month under the station's columns |
| `Realtime2.HidroAutomaticNeedsTry` | PE_SENAMHI_HIDROMETEOROLOGY2/senh_hydrometeo.py:153-160 | A hydrological automatic station succeeds if and only if its `try` does; otherwise it fails with the missing-schema error |
| `Realtime2.SpecificFiltersFecha` | PE_SENAMHI_HIDROMETEOROLOGY2/senh_hydrometeo.py:162-163 | A successful `specific` download came from the `try` and keeps exactly the month's rows whose `fecha` is the requested date |
| `Realtime2.DownloadDataRange2` | PE_SENAMHI_HIDROMETEOROLOGY2/senh_hydrometeo.py:166-174 | The range loop's outcome is fixed by the enumerated months and the one fixed download |
| `Realtime2.DownloadMonths2` | PE_SENAMHI_HIDROMETEOROLOGY2/senh_hydrometeo.py:171-174 | Every iteration downloads `2019-03-01`: the loop either fails with that download's error or processes that date once per enumerated month |
| `Realtime2.RangeIgnoresMonths` | PE_SENAMHI_HIDROMETEOROLOGY2/senh_hydrometeo.py:173-174 | Any two non-empty ranges succeed or fail alike, with the same error: the months asked for do not matter |
| `ArchiveDates.FirstYearStart` | phd_scraper/se_historic.py:86-95 | The start date lies in the first year, and its day of the year leaves exactly N days to 31 December, where N counts the first year's rows; no rows, a year outside 1678 to 2261, or N beyond the year's length are errors |
| `ArchiveDates.LastYearEnd` | phd_scraper/se_historic.py:96-102 | The end date lies in the last year and is its M-th day, where M counts the last year's rows; a year outside 1678 to 2261 or M beyond the year's length are errors |
| `ArchiveDates.GenerateDate` | phd_scraper/se_historic.py:81-106 | The rebuilt column has one date per row, from the start date to the end date; either anchor's error propagates (the same function in `PE_SENAMHI_HISTORIC/senh_hist.py` at lines 29-57) |
| `ArchiveDates.GenerateDateIncreases` | phd_scraper/se_historic.py:103-105 | The rebuilt dates are a gap-free daily run: row j is j - i days after row i |
| `ArchiveDates.FirstYearEndsOnNewYearsEve` | PE_SENAMHI_HISTORIC/senh_hist.py:35-44 | The first year's N entries end on 31 December of that year |
| `ArchiveDates.LastYearStartsOnNewYearsDay` | PE_SENAMHI_HISTORIC/senh_hist.py:46-52 | The last year's M entries start on 1 January of that year |
| `ArchiveDates.GenerateDateRecovers` | PE_SENAMHI_HISTORIC/senh_hist.py:29-57 | For a daily run spanning at least two years, replacing each day by its year and rebuilding gives back the run |
| `ArchiveDates.SingleYear` | phd_scraper/se_historic.py:103-105 | With a single year, a full year of rows rebuilds that year, and fewer rows fail the length check |
| `ArchiveScript.CleanScript` | phd_scraper/se_historic.py:118-120 | The cleaned script has no newline, carriage return or tab, and no `null` left; a script with none of these comes back unchanged |
| `ArchiveScript.CleanDropsBreak` | phd_scraper/se_historic.py:118 | A newline, carriage return or tab is dropped wherever it stands, and the rest is cleaned as if it were not there |
| `ArchiveScript.CleanRewritesNull` | phd_scraper/se_historic.py:119 | A `null` at the front becomes `None`, and the rest is cleaned on its own |
| `ArchiveScript.NoNullLeft` | phd_scraper/se_historic.py:119 | Rewriting every `null` as `None` leaves no `null`, even where a replacement meets the following text |
| `ArchiveScript.BracketSegments` | phd_scraper/se_historic.py:121 | Every match of the non-greedy `\[.*?]` opens with `[`, closes at the first `]` after it, and has no `]` inside |
| `ArchiveScript.SegmentsStep` | PE_SENAMHI_HISTORIC/senh_hist.py:73 | Matches are found left to right: text without `[` before a bracketed span is skipped, the span is the next match, and the search resumes after it |
| `ArchiveScript.LongSegments` | phd_scraper/se_historic.py:122 | The data arrays are exactly the segments longer than 100 characters |
| `ArchiveScript.LongSegmentsConcat` | phd_scraper/se_historic.py:122 | The filter keeps the segments' order: filtering two runs one after the other gives the two filtered runs in that order, so the positions `data_station[1]`, `[2]` and `[3]` count long segments left to right |
| `ArchiveScript.FirstMatch` | phd_scraper/se_historic.py:125 | A match starts with the head, ends at a `]` and holds no other `]` after the head: the lazy `.*?` stops at the first bracket |
| `ArchiveScript.FirstMatchIsFirst` | phd_scraper/se_historic.py:125 | There is a match if and only if the head occurs and a `]` follows its first occurrence; the match is the text of `s` starting at that first occurrence |
| `Text.IndexOfFirst` | phd_scraper/se_historic.py:125 | The search finds the leftmost occurrence of the pattern, finds nothing exactly when the pattern does not occur, and succeeds exactly when the text contains it |
| `ArchiveScript.FirstMatchAtStart` | PE_SENAMHI_HISTORIC/senh_hist.py:78 | A text that starts with the head finds its match there, closed by the first `]` |
| `ArchiveScript.ParseYears` | phd_scraper/se_historic.py:127 | `[int(z) for z in ...]` succeeds if and only if every token reads as an integer, and then keeps count and order |
| `ArchiveScript.AsValue` | phd_scraper/se_historic.py:135-138 | The token `None` becomes absent, and any other token becomes the value it spells |
| `ArchiveScript.ParseValues` | phd_scraper/se_historic.py:133-138 | The append loop reads the comma-separated values in order, one entry per token, and fails on the first token that is neither `None` nor a number |
| `ArchiveScript.SeriesText` | phd_scraper/se_historic.py:141 | The TX and TN arrays are taken from the third and fourth data arrays; a missing array is an index error |
| `ArchiveScript.ChartOf` | phd_scraper/se_historic.py:116-156 | A page with fewer than two scripts is an index error; `ArchiveScript.ChartRoundTrip` states what a well-formed script reads as |
| `ArchiveScript.ReadChart` | PE_SENAMHI_HISTORIC/senh_hist.py:68-112 | The statement-by-statement reading with its append loops gives exactly `ChartOf`'s chart, or the first error met, so `ArchiveScript.ChartRoundTrip` holds for it too |
| `ArchiveScript.ReadValuesRoundTrip` | phd_scraper/se_historic.py:134-138 | Values joined with commas read back unchanged, absent values through the `None` token |
| `ArchiveScript.SeriesRoundTrip` | phd_scraper/se_historic.py:141-147 | An array written as `[v1,...,vn,]` reads back unchanged through the `[1:-2]` slice |
| `ArchiveScript.SeriesWithoutTrailingComma` | PE_SENAMHI_HISTORIC/senh_hist.py:96 | Without the trailing comma the slice cuts into the last value: `[1.5,2.25]` reads as 1.5 and 2.2 |
| `ArchiveScript.PrecRoundTrip` | phd_scraper/se_historic.py:131-138 | A precipitation array written `data: [v1,...,vn,]` reads back unchanged |
| `ArchiveScript.CategoriesRoundTrip` | phd_scraper/se_historic.py:125-127 | Years written as `categories: ['y1',...,'yn']` read back unchanged |
| `ArchiveScript.FirstMatchAfterOpen` | phd_scraper/se_historic.py:125 | A head right after a segment's opening bracket is matched from there to the segment's closing bracket |
| `ArchiveScript.ChartScriptSegments` | phd_scraper/se_historic.py:121 | A chart script cuts into exactly its four segments, in order |
| `ArchiveScript.ChartRoundTrip` | phd_scraper/se_historic.py:116-156 | A script whose cleaned text holds `[categories: ['y1',...]]`, `[data: [p1,...,]]`, `[x1,...,]` and `[n1,...,]`, with each segment over 100 characters, reads back as exactly those years and PREC, TX and TN series. The text between the segments may hold anything but `[`, including line breaks and `null`s that the cleaning removes or rewrites |
| `ArchiveScript.ChartScriptClean` | phd_scraper/se_historic.py:118-119 | A chart script with no line break, `l`, `]` or `:` between its segments is left unchanged by the cleaning |
| `ArchiveTable.TableOf` | phd_scraper/se_historic.py:158-165 | The frame fails on columns of unequal length; otherwise the dates are rebuilt from the years, and PREC, TX and TN are kept in order; the first and last dates lie in the first and last years |
| `ArchiveTable.Download` | phd_scraper/se_historic.py:108-169 | The table is the chart's table, and a chart error propagates |
| `ArchiveTable.DownloadDatesIncrease` | phd_scraper/se_historic.py:165 | A downloaded table's dates increase one day per row |
| `ArchiveTable.DownloadStation` | phd_scraper/se_historic.py:165-169 | The table is returned, and written to `to_csv` if and only if a file name is given and the page parsed |
| `ArchiveTable.DownloadData` | PE_SENAMHI_HISTORIC/senh_hist.py:60-123 | On success the table is written to `output` and 0 is returned; on failure nothing is written and the error propagates |
| `Skeleton.Fib` | PE_SENAMHI_HIDROMETEOROLOGY/src/pe_senamhi_hidrometeorology/skeleton.py:103-107 | `n <= 0` fails the assertion; otherwise the loop returns the n-th Fibonacci number, F(1) = F(2) = 1 |
| `Skeleton.FibTestValues` | PE_SENAMHI_HIDROMETEOROLOGY/tests/test_skeleton.py:12-14 | F(1) = 1, F(2) = 1 and F(7) = 13 |

## Where the code and its documentation differ

This model follows the code in each case below.

- **Archive categories.** The chart's categories are read as **years**. `generate_date` formats the first and last values into `1/1/{}` and `31/12/{}`, so each one names a year, not a day of the year.
- **Station lookup.** It raises whenever the number of matching records is not exactly one, and that includes zero matches.
- **`add_altitude`.** The altitude comes from the **last** cell that mentions `msnm`, because the loop overwrites `alt`. When no cell mentions `msnm`, `alt` is never bound, so the call fails.
- **Hydrological deferred stations, first version.** `hidro_manual_deferred` lists four names, but the hydrological manual page has five raw columns.
  - The renaming at line 336 therefore always raises.
  - Such a station always gets the empty month (`Realtime.HidroDeferredFallsBack`).
- **(H, AUTOMATICA) stations.** They build `hidro_automatic`, which the column table does not contain. The result is a missing-schema error:
  - in the first version, before the `try`;
  - in the second version, from its `except` branch.

## Left out

- **HTTP and HTML.** Requests and parsing are not modelled; the parsed pages are inputs.
  - The station and data pages are functions of the query in a `Service` value.
  - The archive page is its list of script texts.
  - Since these are pure functions, two identical requests are modelled as giving the same answer.
  - The URL strings are modelled as the key-value queries they encode.
- **Pickle.** Loading a pickled metadata file is replaced by its list of records.
- Realtime.DownloadData: its single `db` stands for the default metadata file `../../data/senh_realtime.dictionary`. In the source only the lookup reads a non-default `metadata_db`; the two classifications (`gaugestation_clasification` without a path) always read the default file. A station present in a non-default file but absent from the default one therefore raises at the classification in the source, while the model classifies it from the same list. In `RealtimeRange.DownloadDataRange` and `Realtime2.DownloadDataRange2` the `db` is likewise the default file, for every lookup too. The source's range functions accept a `metadata_db` but never forward it to `show_message` or `download_data`, so they always read the default file.
- **Printing and logging.** `show_message`'s printed table, the `print` echoes, `setup_logging`, argparse, `main` and `run` are CLI and I/O. Only `show_message`'s lookup, which can raise, is kept.
- **CSV writing.** Writing a file is modelled as the `(file name, table)` the methods return. The first version's range download prints or writes its concatenated frame; the model returns that frame.
- **Date parsing.** `pd.to_datetime` on a `fecha` cell is an injected function whose results are assumed to be valid dates in the Timestamp range. pandas' lenient date formats are not modelled.
  - The bounds of `pd.date_range` in `download_data_range` are read with the `%Y-%m-%d` rule of `DateText.ParseIsoDate`, not with pandas' more lenient parser.
  - `DateText.ParseIsoDate` follows `strptime`'s fields: four ASCII year digits, a month of one or two digits, and a day of one or two digits or a space and a digit. Python's `\d` also matches non-ASCII digits in the year and in the day's second digit; those are not modelled.
- **Timestamp range.** It is taken as the whole years 1678 to 2261, not the exact nanosecond bounds.
- ArchiveDates.FirstYearStart: a year from 0 to 99 is an error in the model, while the date parser reads `1/1/99` with a two-digit year as 1999 (and `1/1/5` as 2005), choosing the century from the current date; that clock-dependent reading is not modelled, and the same holds for `ArchiveDates.LastYearEnd` and `ArchiveDates.GenerateDate`.
- Text.ParseInt: it reads an optional sign and ASCII digits between optional spaces; Python's `int()` also accepts `_` between digits, other whitespace and non-ASCII digits, which the chart's years never hold. `ArchiveScript.ParseYears` inherits this.
- **Numbers.** `float()` on a chart token is an injected predicate, and values are kept as their token text. No arithmetic is done on them, and the float means checked by `PE_SENAMHI_HISTORIC/test/test_senh_hist.py` depend on the network.
- **NaN.** The `None`→NaN replacement of `se_historic.download` is the identity here, because absent values are already `None`.
- **Frames as values.** pandas frames that the source mutates in place (`inplace=True`, column assignment) are modelled as new values, so aliasing between frames is not captured.
- **`Realtime2.DownloadDataRange2`.** The results of the range loop are discarded by the source, so the model returns the list of dates processed instead of a frame.
- **`PE_SENAMHI_HIDROMETEOROLOGY/senh_hydrometeo.py`, `setup.py` and `phd_scraper/__init__.py`.** These files hold only packaging, imports or an argument stub, so they are not part of this model.
