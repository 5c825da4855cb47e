# COVID-19 data pipeline, modelled in Dafny

This project models the data core of a COVID-19 analysis repository:

- **Acquisition.** Every calendar day from 2020-01-22 to today, the global daily report `MM-DD-YYYY.csv` is downloaded from the Johns Hopkins CSSE repository into `data/raw/daily_reports/`. A missing day (an HTTP error) is skipped. Any other failure ends the run. The downloaded files are then combined into one table, and each row is tagged with its file's date string.
- **ETL.** The daily files are loaded in sorted order, and each table is tagged with the date its file name parses to. The tables are concatenated and cleaned:
  - columns are renamed to Country, Province, Latitude, Longitude and LastUpdate;
  - the essential columns are back-filled;
  - the counts are coerced to integers;
  - five country names are canonicalised;
  - Active is recomputed as `max(Confirmed - Deaths - Recovered, 0)`.

  The cleaned table is then summed per (Country, Date), sorted by country and date, and given clipped day-over-day increases.
- **US data loader.** The `DataLoader` class downloads one US report per day from 2020-04-12 on. It fails when nothing was downloaded. It keeps the combined table in a cache file and reads that cache back unless a refresh is forced. It post-processes the table:
  - back-fills and coerces the essential state columns;
  - adds, per state, each count's change over the state's previous row;
  - adds the pandas 7-row trailing mean of that change.
- **Dashboard.** `format_number` uses the K/M/B tiers. The four metric cards compare a state's latest row with the row seven rows earlier.

Tables are `Frames.Frame` values: a set of column labels and a sequence of rows, where each row maps a label to a cell (missing, integer, text or timestamp). The outside world is passed in as parameters:

- `today` stands for `datetime.now()`;
- `remote` stands for what the server answers for a URL;
- `dir` stands for the contents of the download directory: each file holds either a table or `Unparsable`, content that `pd.read_csv` rejects;
- `read` and `fetch` stand for `pd.read_csv`, giving None where it raises;
- `render` stands for Python's fixed-point float formatting.

The modules follow the source:

| module | source |
|---|---|
| `Dates` | `datetime` and `timedelta` as the pipeline uses them |
| `Strings` | `endswith`, `replace` and string order |
| `Frames` | the DataFrame operations |
| `Acquisition` | `acquisition.py` |
| `Etl` | `load_and_combine_data` and `clean_data` |
| `Aggregation` | `aggregate_by_country` |
| `DataLoading` | `data_loader.py` |
| `App` | `app.py` |

Loops in the source are loops here, and each one is proved against a specification function. Lemmas prove what those functions mean.

## Model

| member | source | states |
|---|---|---|
| Dates.MonthStep | src/data/acquisition.py:34 | The days before month m+1 are the days before month m plus the length of month m, so stepping past a month's end lands on the 1st of the next month. |
| Dates.MonthBounds | src/data/acquisition.py:34 | Every day of a month comes before every later month of the same year. |
| Dates.YearBounds | src/data/acquisition.py:34 | Every day of a year comes before every later year. |
| Dates.InYear | src/data/acquisition.py:34 | The day number of a valid date lies inside its own year. |
| Dates.LeIffDayNumber | src/data/acquisition.py:23 | For valid dates, the `current_date <= end_date` comparison agrees with the comparison of day numbers, in both directions. |
| Dates.DayNumberInjective | src/data/acquisition.py:23 | Two valid dates with the same day number are equal. |
| Dates.NextDayStep | src/data/acquisition.py:34 | `+ timedelta(days=1)` moves exactly one day forward, to a strictly later date. The result is valid unless the date is 9999-12-31. |
| Dates.DaysFrom | src/data/acquisition.py:23-34 | The days the loop visits are all valid dates. |
| Dates.DaysFromSpec | src/data/acquisition.py:23-34 | The loop visits end - start + 1 days, and none when start is after end. The i-th day is start + i days and lies between start and end. |
| Dates.DaysFromComplete | src/data/acquisition.py:23-34 | Every valid day between start and end is visited, at the position its distance from start gives. |
| Dates.DaysFromIncreasing | src/data/acquisition.py:23-34 | The visited days are strictly increasing. |
| Dates.DaysFromNext | src/data/acquisition.py:34 | Within the range, the day after one visited day is the next visited day. |
| Dates.DaysFromEnd | src/data/acquisition.py:23 | An empty range means start is after end. A non-empty range ends at `end`, and the day after it fails the loop guard. |
| Dates.StepDay | src/data/data_loader.py:22-34 | After the k-th day is tried, the loop moves to the (k+1)-th day, or leaves the loop when the k-th day was the last. |
| Dates.ScheduleStart | src/data/data_loader.py:21 | Before the first pass nothing has been tried, and the current day is `start`. |
| Dates.ScheduleStep | src/data/data_loader.py:22-34 | A pass that passes the guard tries exactly the next day of the range and stays on schedule. |
| Dates.ScheduleAdvance | src/data/data_loader.py:22-34 | The same step for any day list in which each day follows the one before it. |
| Dates.ScheduleEnd | src/data/data_loader.py:22 | When the guard fails, every day of the range has been tried, in order. |
| Dates.Padded | src/data/acquisition.py:24 | A field of `strftime` has exactly the requested width and is all digits. |
| Dates.PaddedValue | src/data/acquisition.py:24 | Reading back a zero-padded field gives the number that was written. |
| Dates.ValuePadded | src/data/etl.py:16 | A digit field is the zero-padded form of its own value. |
| Dates.Format | src/data/acquisition.py:24 | `strftime("%m-%d-%Y")` is 10 characters long, with dashes at positions 2 and 5. |
| Dates.Parse | src/data/etl.py:16 | `to_datetime(..., format='%m-%d-%Y')` only ever yields a valid date. |
| Dates.ParseFormat | src/data/etl.py:16 | Parsing the formatted date gives the date back. |
| Dates.FormatParse | src/data/etl.py:16 | A string that parses is the formatted form of its date, so there is one name per date. |
| Dates.FormatInjective | src/data/acquisition.py:24 | Distinct dates get distinct date strings. |
| Dates.FormatCharacters | src/data/acquisition.py:24 | A date string has only digits and dashes. |
| Strings.WithSuffix | src/data/acquisition.py:40 | The filter keeps exactly the names of the listing that end in the suffix. |
| Strings.SuffixPositions | src/data/acquisition.py:40 | The matching names' positions: each matches, they increase, and no matching name is missed. |
| Strings.WithSuffixInOrder | src/data/acquisition.py:40 | The list comprehension keeps each matching name once and in listing order: its t-th element is the name at the t-th matching position. |
| Strings.ReplaceAbsent | src/data/etl.py:16 | `replace` leaves a string unchanged when the string lacks the pattern's first character. |
| Strings.ReplaceTrailing | src/data/etl.py:16 | `name.replace('.csv', '')` on a date string followed by `.csv` leaves the date string. |
| Strings.LessIrreflexive | src/data/etl.py:68 | String order is irreflexive. |
| Strings.LessTransitive | src/data/etl.py:68 | String order is transitive. |
| Strings.LessAsymmetric | src/data/etl.py:68 | String order is asymmetric. |
| Strings.LessTotal | src/data/etl.py:68 | Any two distinct strings are ordered one way or the other. |
| Frames.ToNumberCases | src/data/etl.py:43 | `to_numeric(errors='coerce').fillna(0)` keeps an integer. A missing value, non-numeric text or a timestamp becomes 0. Integer text becomes its value. |
| Frames.SetColumn | src/data/etl.py:55 | A column assignment adds the column, sets it in every row, changes nothing else, and keeps the table rectangular. |
| Frames.Fill | src/data/etl.py:36-38 | After the back-fill loop, a row has its own columns plus the listed ones. |
| Frames.FillStep | src/data/etl.py:37-38 | One pass adds the column with its default only when it is absent. A present value is never overwritten. |
| Frames.Coerce | src/data/etl.py:42-43 | After the coercion loop, a row has its own columns plus the listed ones. |
| Frames.CoerceStep | src/data/etl.py:43 | One pass replaces the column by the number its value coerces to. |
| Frames.FillColumns | src/data/data_loader.py:70-72 | The loop method keeps the table rectangular and of the same length. Its columns are the old ones plus the listed ones, and each row is `Fill` of the input row. |
| Frames.CoerceColumns | src/data/data_loader.py:76-77 | The loop method keeps the table rectangular and of the same length, and each row is `Coerce` of the input row. |
| Frames.Pad | src/data/etl.py:20 | `concat` aligns a row to the union of the columns: each column the row has keeps its value, and each column it lacks holds a missing value. |
| Frames.AllColumnsCover | src/data/etl.py:20 | The concatenation's columns include every part's columns. |
| Frames.ConcatAllSpec | src/data/etl.py:20 | The concatenation has as many rows as its parts together, and every row has exactly the combined columns. |
| Frames.AllRowsLength | src/data/etl.py:20 | The concatenation has exactly as many rows as its parts together. |
| Frames.ConcatRowAt | src/data/etl.py:20 | With `ignore_index=True`, the j-th row of the k-th part sits at position (rows of parts before k) + j, padded to the combined columns. |
| Frames.ConcatRowSource | src/data/etl.py:20 | Every row of the concatenation lies in the block of rows of one part. |
| Frames.ConcatAllWellFormed | src/data/data_loader.py:39 | `pd.concat(all_data, ignore_index=True)` is rectangular and keeps every row. |
| Frames.AllRowsRepad | src/data/acquisition.py:47 | Padding the rows concatenated so far out to a wider column set gives the concatenation at the wider set. |
| Frames.ColumnValues | src/data/etl.py:17-20 | When each part holds one value in a column, every row of the concatenation holds one of those values there. |
| Frames.ConcatStep | src/data/acquisition.py:42-47 | Concatenating one table at a time, starting from `pd.DataFrame()`, gives the same result as one `concat` of the whole list. |
| Acquisition.FileNameRoundTrip | src/data/acquisition.py:24-26 | The URL and the local file use the same date string. The name ends in `.csv`, `file[:-4]` gives the date string back, and that string parses to the day. |
| Acquisition.FileNameInjective | src/data/acquisition.py:26 | Distinct days write distinct files. |
| Acquisition.DownloadFile | src/data/acquisition.py:6-12 | The file is written exactly when the server replies with a status below 400 or at 600 and above, and then it holds the reply, which may not be a readable table. Otherwise the directory is unchanged. Other failures map exactly to an unreachable server. |
| Acquisition.DownloadedSnoc | src/data/acquisition.py:29 | Downloading one more day applies that day's `download_file` to the directory so far. |
| Acquisition.DownloadFileOther | src/data/acquisition.py:9 | A download touches no file but its own. |
| Acquisition.DownloadedDay | src/data/acquisition.py:23-34 | After the loop, a day's file exists exactly when it existed before or the server served it. A served file holds the served content, and an unserved file keeps its old content. |
| Acquisition.DownloadedLast | src/data/acquisition.py:23-34 | The downloads before the last day leave the last day's file as it was. |
| Acquisition.DownloadedUntouched | src/data/acquisition.py:26 | A file that is not the name of any visited day is left alone. |
| Acquisition.FetchDay | src/data/acquisition.py:24-32 | One pass builds the URL and name from the same day and applies `download_file`. It reports the run-ending failure exactly when the server was unreachable. |
| Acquisition.FetchJhuCovidData | src/data/acquisition.py:14-34 | The loop tries a prefix of the days from 2020-01-22 to today, in order. It completes, having tried every day, exactly when no day was unreachable. Otherwise it stops at the first unreachable day. The directory is the result of those downloads. |
| Acquisition.ReachedStep | src/data/acquisition.py:28-34 | A reachable day extends the loop's invariant by one day, and its directory is that day's download applied. |
| Acquisition.CombineDailyReports | src/data/acquisition.py:38-47 | The combining loop succeeds exactly when every `.csv` file of the listing reads as a table, and then returns their concatenation, each tagged with `file[:-4]`. Otherwise it stops with the first `.csv` file whose `read_csv` raises. |
| Acquisition.CombinedRows | src/data/acquisition.py:44-47 | The combined table is rectangular and has the rows of all `.csv` files. The j-th row of the k-th `.csv` file sits at position (rows of earlier files) + j. There it holds that file's values, padded to the combined columns, and its Date is the file's stem. |
| Acquisition.CombinedRowSource | src/data/acquisition.py:44-47 | Every row of the combined table comes from the block of one `.csv` file. |
| Etl.FileDateOfName | src/data/etl.py:16 | A file written by the downloader is dated with the day it was downloaded for, provided that day lies in the pandas timestamp range 1677-09-22 to 2262-04-11. Outside that range `to_datetime` raises. |
| Etl.FileDate | src/data/etl.py:16 | A date parsed from a file name is valid and lies in the pandas timestamp range. |
| Etl.TagFilesErrorStays | src/data/etl.py:15-16 | Once a file fails to read or its name fails to parse, the loop's result is that error. |
| Etl.LoadAndCombineData | src/data/etl.py:6-20 | The loading loop returns the concatenation of the dated `.csv` tables. Otherwise it returns the error the loop raises (an unreadable file, checked before its name, or a name that is not a date) or the one `concat` raises. |
| Etl.LoadSkipsOtherFiles | src/data/etl.py:12-13 | Names without `.csv` have no effect on the result. |
| Etl.TagFilesSpec | src/data/etl.py:11-18 | There is one table per `.csv` name, in order. Each is the table read from that file, dated with the date its name parses to. |
| Etl.LoadedRows | src/data/etl.py:20 | A successful load is rectangular and has as many rows as the `.csv` files together. |
| Etl.LoadedRowAt | src/data/etl.py:15-20 | The j-th row of the k-th `.csv` file sits at position (rows of earlier files) + j. It holds that file's values with Date set to the parsed date, padded to the combined columns. |
| Etl.LoadedDates | src/data/etl.py:17-20 | Every row of a successful load carries the parsed date of one of the `.csv` names. |
| Etl.LoadFails | src/data/etl.py:11-20 | Loading fails exactly when some `.csv` file cannot be read or its name is not a date, or there is no `.csv` name at all. |
| Etl.TagFilesFails | src/data/etl.py:15-16 | The loop raises exactly when some `.csv` file cannot be read or its name is not a date. |
| Etl.SourceOfInvertsMapping | src/data/etl.py:25-31 | The rename mapping is invertible on its targets, and no target is also a key. |
| Etl.RenameRowSpec | src/data/etl.py:32 | Each present mapping key's value moves to its target and the key disappears. Other columns keep their values, and every resulting column comes from an input column. |
| Etl.RenameNothing | src/data/etl.py:32 | A row with no mapping key is unchanged. |
| Etl.LabelsDistinct | src/data/etl.py:35 | The essential column labels are distinct, and none is a rename key. |
| Etl.ColumnListsAsSets | src/data/etl.py:35-41 | The essential and numeric lists have the same members as their sets. |
| Etl.NumericDefaults | src/data/etl.py:38 | Every numeric column is essential, and its back-fill default is 0. |
| Etl.AliasSpec | src/data/etl.py:46-52 | Exactly the five listed names are rewritten. Every other value is kept, and rewriting twice equals rewriting once. |
| Etl.LoopsPrepareAt | src/data/etl.py:36-43 | After the two loops, each column holds what the combined back-fill and coercion gives. |
| Etl.LoopsPrepare | src/data/etl.py:36-43 | The back-fill loop followed by the coercion loop equals the combined back-fill and coercion. |
| Etl.CleanData | src/data/etl.py:22-58 | `clean_data` keeps the table rectangular and of the same length. Its columns are the renamed ones plus the essential ones, and each row is cleaned on its own. |
| Etl.CleanedKeys | src/data/etl.py:36-38 | Cleaning a renamed row adds exactly the essential columns. |
| Etl.CleanedOthers | src/data/etl.py:22-58 | Non-essential columns are untouched. |
| Etl.CleanedCountry | src/data/etl.py:46-52 | Country is the canonical name of the row's country, and missing when it was missing. |
| Etl.CleanedDate | src/data/etl.py:38 | Date is kept, and is missing when it was missing. |
| Etl.CleanedCount | src/data/etl.py:43 | Confirmed, Deaths and Recovered are the integers their values coerce to, 0 when missing or unparseable. |
| Etl.CleanedActive | src/data/etl.py:55-56 | Active is recomputed as the clipped difference of the coerced counts, whatever its input value was. |
| Etl.CleanRowSpec | src/data/etl.py:22-58 | This is the whole cleaned row: the renamed and essential columns, the coerced counts, the canonical Country and the kept Date. Active is never negative and never below Confirmed - Deaths - Recovered. |
| Etl.RenamedNoSource | src/data/etl.py:32 | No renamed column is a rename key. |
| Etl.CleanRowRenamed | src/data/etl.py:22-58 | No column of a cleaned row is a rename key. |
| Etl.CleanAgainAt | src/data/etl.py:22-58 | Cleaning again leaves each column's value alone. |
| Etl.CleanAgainActive | src/data/etl.py:55-56 | Recomputing Active from counts that were already cleaned gives the same Active. |
| Etl.CleanRenamedIdempotent | src/data/etl.py:35-56 | Cleaning a renamed row is idempotent. |
| Etl.CleanIdempotent | src/data/etl.py:22-58 | `clean_data` applied to its own output changes no row. |
| Aggregation.PerMetric.Set | src/data/etl.py:70 | Assigning one metric changes that metric only. The same record holds the US means (`data_loader.py:85`). |
| Aggregation.KeyLessOrder | src/data/etl.py:68 | `sort_values(['Country', 'Date'])` orders by a strict total order. |
| Aggregation.Observations | src/data/etl.py:65 | `groupby` sees the rows whose Date is a timestamp and whose Country is a name, and only those. |
| Aggregation.ObservedPositions | src/data/etl.py:65 | The kept rows' positions: each row there is kept, they increase, and no kept row is missed. |
| Aggregation.ObservationsInOrder | src/data/etl.py:65 | Each kept row contributes exactly one observation, in row order. |
| Aggregation.KeysAt | src/data/etl.py:65 | A key is a group key exactly when some group carries it. |
| Aggregation.SortedPairs | src/data/etl.py:68 | In the sorted table every row's key is below every later row's key. |
| Aggregation.Insert | src/data/etl.py:65-68 | Adding a row to the groups adds its key and keeps the groups sorted. |
| Aggregation.LookupMissing | src/data/etl.py:65 | A key without a group has zero totals. |
| Aggregation.InsertTotal | src/data/etl.py:65 | Adding a row to the groups adds its counts to the grand total. |
| Aggregation.InsertTotals | src/data/etl.py:65 | A row's counts are added to its own group only, and to the grand total. |
| Aggregation.GroupSum | src/data/etl.py:65-68 | The grouped table is sorted by (Country, Date). |
| Aggregation.ObsKeysAt | src/data/etl.py:65 | A key is an observed key exactly when some row carries it. |
| Aggregation.GroupSumSpec | src/data/etl.py:65 | There is a group for exactly the observed keys. Each group's totals are the sum over its rows, and the grand total is preserved. |
| Aggregation.LookupAt | src/data/etl.py:68 | The totals at a row of the sorted table are those of its key. |
| Aggregation.GroupSumGroups | src/data/etl.py:65 | Group keys are pairwise distinct and each comes from some row. Each group's totals are the sum of its rows. |
| Aggregation.GroupSumCovers | src/data/etl.py:65 | Every observed row's key has a group. |
| Aggregation.NewSoFarAll | src/data/etl.py:69-71 | After the loop over the four metrics, each metric holds its increase. |
| Aggregation.IncreaseStep | src/data/etl.py:70-71 | One pass of the metric loop sets that metric's increase in every row and keeps the earlier ones. |
| Aggregation.AllMetricsDone | src/data/etl.py:69-71 | At the loop's end, the rows are the groups with all four increases. |
| Aggregation.AggregateByCountry | src/data/etl.py:60-73 | For cleaned rows, `aggregate_by_country` gives the sorted groups with their totals, and for each metric the clipped increase over the country's previous row. |
| Aggregation.NewValueBounds | src/data/etl.py:70-71 | An increase is never negative, and it is 0 on a country's first day. |
| Aggregation.NewValueIsDifference | src/data/etl.py:68-71 | When a country has an earlier day, the previous row is that country's latest earlier day, and the increase is the clipped difference to it. |
| DataLoading.CollectedSnoc | src/data/data_loader.py:26-32 | One more day appends its stamped table when its read succeeds, and nothing when the read raises. |
| DataLoading.DayUrlInjective | src/data/data_loader.py:23-24 | Distinct days are read from distinct URLs, so what is read for a day can be taken as a function of the day. |
| DataLoading.CollectedSpec | src/data/data_loader.py:26-29 | The k-th collected table is the k-th successful day's table, stamped with that day. |
| DataLoading.FetchedMembers | src/data/data_loader.py:26-32 | Exactly the days whose read succeeds are kept. |
| DataLoading.FetchedIncreasing | src/data/data_loader.py:22-34 | The kept days are in chronological order. |
| DataLoading.DownloadFails | src/data/data_loader.py:36-37 | The `ValueError` is raised exactly when no day in the range could be read. |
| DataLoading.DownloadRows | src/data/data_loader.py:39-41 | A successful download is rectangular and has the collected tables' rows. Each row is dated with one of the successful days, and those days are chronological. |
| DataLoading.StateLabels | src/data/data_loader.py:64-75 | The numeric columns are the essential ones except Province_State. |
| DataLoading.MetricLabels | src/data/data_loader.py:83 | The four change columns are among the numeric ones. |
| DataLoading.PreparedKeys | src/data/data_loader.py:70-77 | The prepared row has its own columns plus the essential ones. |
| DataLoading.PreparedProvince | src/data/data_loader.py:72 | A missing Province_State becomes '' and a present one is kept. |
| DataLoading.PreparedNumeric | src/data/data_loader.py:76-77 | Every numeric column holds its coerced value, 0 when missing or unparseable. |
| DataLoading.PreparedOthers | src/data/data_loader.py:70-77 | Every other column is left alone. |
| DataLoading.Latest | src/data/data_loader.py:84 | A found previous row lies before the row and has the same state. |
| DataLoading.LatestIsLatest | src/data/data_loader.py:84 | No row of the state lies between the previous row found and the current row. When none is found, the state has no earlier row. |
| DataLoading.OccurrencesGap | src/data/data_loader.py:85 | Rows of other states do not change a state's row count. |
| DataLoading.LastRows | src/data/data_loader.py:85 | The rolling window ends at the row itself, has at most n rows, and has none after it. |
| DataLoading.LastRowsLength | src/data/data_loader.py:85 | The window holds min(n, rows of the state so far). |
| DataLoading.LastRowsOrdered | src/data/data_loader.py:85 | The window holds only the row's state, in increasing order. |
| DataLoading.LastRowsGapless | src/data/data_loader.py:85 | The window skips no row of the state. A short window starts at the state's first row. |
| DataLoading.NewAtFirst | src/data/data_loader.py:84 | A state's first row has change 0. |
| DataLoading.NewAtPrevious | src/data/data_loader.py:84 | Any later row of a state has the difference to the state's previous row, however far back that row is. |
| DataLoading.NewAtNegative | src/data/data_loader.py:84 | The change is not clipped: wherever a state's count falls below its value on the state's previous row, the change is negative. |
| DataLoading.MA7Defined | src/data/data_loader.py:85 | The mean exists exactly for rows with a state that has at least 7 rows up to that row. |
| DataLoading.SumOfSeven | src/data/data_loader.py:85 | A 7-row window sums its seven values. |
| DataLoading.MA7Value | src/data/data_loader.py:85 | A defined mean is the sum of the changes over the state's last 7 rows, including this one, divided by 7. |
| DataLoading.MetricStep | src/data/data_loader.py:83-85 | One pass of the metric loop sets that metric's change and mean columns and keeps the earlier ones. |
| DataLoading.SoFarAll | src/data/data_loader.py:83-85 | After the loop, each metric holds its change and mean columns. |
| DataLoading.ProcessedSpec | src/data/data_loader.py:61-87 | Each processed row is the prepared input row with each metric's change and 7-row mean. |
| DataLoading.ProcessedInputs | src/data/data_loader.py:70-77 | Changes are grouped by the prepared Province_State ('' when missing) over the coerced counts. |
| DataLoading.LoadResultSpec | src/data/data_loader.py:48-59 | The cache is used exactly when refreshing is not forced and the cache holds a readable table. Otherwise the result is a fresh download from 2020-04-12, which fails exactly when no day could be read. Forcing a refresh behaves as if there were no cache. |
| DataLoading.DataLoader.constructor | src/data/data_loader.py:7-11 | A new loader sees the cache file as it exists. |
| DataLoading.DataLoader.DownloadData | src/data/data_loader.py:13-41 | `download_data` tries every day from the start (2020-04-12 by default) to today. It returns the combined table or the error. A success replaces the cache, and a failure leaves it. |
| DataLoading.DataLoader.LoadData | src/data/data_loader.py:48-59 | `load_data` returns what `LoadResult` describes. The cache changes only when a download happened and succeeded. |
| DataLoading.DataLoader.PrepareStates | src/data/data_loader.py:70-77 | The two column loops yield the prepared rows, and the table stays rectangular. |
| DataLoading.DataLoader.ProcessData | src/data/data_loader.py:61-87 | `_process_data` yields the processed table `ProcessedSpec` describes. |
| App.TierIntervals | src/data/app.py:6-14 | The suffix tiers partition the number line at 1e3, 1e6 and 1e9. |
| App.ScaledRange | src/data/app.py:8-13 | A K or M number is shown scaled into [1, 1000), and a B number scaled to at least 1. |
| App.FormatNumberSuffix | src/data/app.py:6-14 | The text is the scaled value with one decimal followed by the tier's suffix, or a whole value without suffix below 1000. |
| App.SmallValuesPlain | src/data/app.py:14 | Every value below 1000, negative ones included, is rendered whole without suffix. |
| App.WeeklyDropPlain | src/data/app.py:14 | A weekly drop of 5000 is shown as a plain "-5000", not "-5.0K". |
| App.CreateMetricsCards | src/data/app.py:16-42 | The cards exist exactly when the state has at least 8 rows. There are four, in the order Total Cases, Deaths, Tests, Hospitalization Rate, and only Deaths is inverse-coloured. |
| App.CreateMetricsValues | src/data/app.py:18-35 | Each count card shows the latest value and the change over 7 rows through `format_number`, marked " (7d)". The rate card shows a percentage and a signed percentage change. |
| App.SignedSpec | src/data/app.py:32 | `:+.1f` prefixes "+" to a value that is not negative and nothing to a negative one. |
| App.WindowOfOneState | src/data/data_loader.py:85 | For a single state's rows, the window at row i is the n rows ending at i. |
| App.WeeklyChangeIsSevenMeans | src/data/app.py:19-22 | For one state's rows, the card's weekly change equals 7 times the loader's latest 7-row mean of the daily changes. |

## Left out

- Floating point: counts are integers, and text coerces only when it is an optionally signed decimal integer. Text such as "3.7", which pandas coerces to 3.7 (and `astype(int)` to 3), becomes 0 here. The float columns of the US data (Incident_Rate and the like) are coerced the same way.
- `Testing_Rate` (`data_loader.py:80`) is not modelled. It divides floats and can be infinite or NaN.
- Dates.Parse: accepts only the zero-padded `MM-DD-YYYY` form. `strptime` also accepts unpadded fields such as `1-2-2020`.
- Etl.RenameRow: when a mapping target already exists beside its key, pandas keeps two columns with the same label. The model keeps the renamed value.
- `print` output is not modelled, nor are directories being created (`os.makedirs`, `acquisition.py:21` and `data_loader.py:11`), the chunked streaming of `download_file`, or the file writes of `to_csv`.
- The cache and the combined files are values, not CSV text, so the CSV round trip is not modelled. A cache whose read or Date parsing raises is the `Unreadable` case.
- Dates.Parse: models `strptime`, so it accepts years 1 to 9999. The pandas limit on timestamps (1677-09-22 to 2262-04-11) is applied by Etl.FileDate, which rejects a file name such as `01-01-3000.csv` as `to_datetime` does.
- Acquisition.FetchJhuCovidData: when today is 9999-12-31, the source raises `OverflowError` at `current_date += timedelta(days=1)` after the last day. The model ends the loop normally there.
- DataLoading.DataLoader.DownloadData: when today is 9999-12-31, the source raises `OverflowError` at `current_date += timedelta(days=1)` after the last day. The model ends the loop normally there.
- Aggregation.Observations: a row whose Country is present but not text (a number, say) is dropped. pandas would group it, and sorting such mixed labels raises `TypeError`.
- `DataLoader.__init__` sets `base_url`, `data_dir` and `cache_file`. The URL is `UsReportsUrl`. The cache file is the loader's `cache` value, so its path is not modelled.
- `datetime.now()` is the parameter `today`. Both day loops compare whole days, so the time of day is not modelled.
- The directory listing's order is an input: `sorted(os.listdir(...))` and `os.listdir(...)` are the `names` and `listing` as given.
- `save_processed_data` and `run_etl` (`etl.py:75-106`) are file I/O and orchestration and are not modelled.
- `main` in `app.py` (the Streamlit page layout, map and charts) is user interface and is not modelled. `st.columns` and `col.metric` are represented by the `Card` values.
- A row whose Country or Date is missing is dropped by `groupby`, which is modelled. Duplicate column labels are not modelled.
- Aggregation.AggregateByCountry: yields `CountryDay` records (key, totals, increases) rather than a DataFrame with `New{col}` columns. The content is the same.
- DataLoading.DataLoader.ProcessData: yields `StateDay` records rather than extra DataFrame columns. The MA7 values are exact rationals where pandas uses floats.
- An exception raised inside `_process_data` on a cached table (which would fall through to a download) is not modelled. Only a failed read of the cache falls through.
- App.FormatNumber: the `.1f`/`.0f` rendering is the parameter `render`, and exact reals stand in for floats.
- App.CreateMetrics: works on `Snapshot` rows holding the four columns it reads. Rows that contain NaN are not modelled.
- Where the design description and the code disagree, the model follows the code:
  - `clean_data` recomputes Active on every row, not only where it is missing.
  - The renames go to `Country` and `Province`.
  - No check that Deaths and Recovered are at most Confirmed is performed.
  - The US changes are not clipped (`NewAtNegative`).
  - The 7-row mean needs 7 rows, because pandas' `min_periods` defaults to the window.
  - No re-check runs after aggregation.
