/** The US state-level loader: it downloads one daily report per day, keeps
    the combined table in a cache file, and post-processes it with per-state
    daily changes and 7-row trailing means. */
module DataLoading {
  import opened Wrappers
  import opened Dates
  import opened Frames
  import opened Aggregation

  // ---------------------------------------------------------------------------
  // download_data

  /** The first day with US daily reports, the default start of a download. */
  const FirstUsDay: Date := Date(2020, 4, 12)

  const UsReportsUrl: string :=
    "https://raw.githubusercontent.com/CSSEGISandData/COVID-19/master/csse_covid_19_data/csse_covid_19_daily_reports_us/"

  /** `f"{self.base_url}{date_str}.csv"`, the report `download_data` reads for
      a day. */
  function DayUrl(d: Date): string
    requires Valid(d)
  {
    UsReportsUrl + Format(d) + ".csv"
  }

  /** Distinct days are read from distinct URLs, so what `pd.read_csv` finds
      at a day's URL is a function of the day: the `fetch` parameter below. */
  lemma DayUrlInjective(a: Date, b: Date)
    requires Valid(a) && Valid(b) && DayUrl(a) == DayUrl(b)
    ensures a == b
  {
    var n := |UsReportsUrl|;
    assert DayUrl(a)[n..n + 10] == Format(a);
    assert DayUrl(b)[n..n + 10] == Format(b);
    FormatInjective(a, b);
  }

  datatype LoadError = NoDataDownloaded

  function StartOf(start: Option<Date>): Date {
    if start.None? then FirstUsDay else start.value
  }

  /** A downloaded day's table with `df['Date'] = current_date`. */
  function Stamped(f: Frame, d: Date): Frame {
    SetColumn(f, "Date", _ => When(d))
  }

  /** The days of `days` whose download succeeded, in order. */
  function Fetched(days: seq<Date>, fetch: Date -> Option<Frame>): seq<Date> {
    if days == [] then []
    else
      var rest := Fetched(days[..|days| - 1], fetch);
      var d := days[|days| - 1];
      if fetch(d).Some? then rest + [d] else rest
  }

  /** `all_data` after the loop has run over `days`: one stamped table per
      successful day, a failed day contributing nothing. */
  function Collected(days: seq<Date>, fetch: Date -> Option<Frame>): seq<Frame> {
    if days == [] then []
    else
      var rest := Collected(days[..|days| - 1], fetch);
      var d := days[|days| - 1];
      match fetch(d)
      case None => rest
      case Some(f) => rest + [Stamped(f, d)]
  }

  /** What `download_data` returns for a run over the days from `start` to
      `today`: the concatenation of what was collected, or the error raised
      when nothing was. */
  function DownloadResult(start: Date, today: Date, fetch: Date -> Option<Frame>): Result<Frame, LoadError>
    requires Valid(start) && Valid(today)
  {
    var collected := Collected(DaysFrom(start, today), fetch);
    if collected == [] then Err(NoDataDownloaded) else Ok(ConcatAll(collected))
  }

  ghost predicate FetchWellFormed(fetch: Date -> Option<Frame>) {
    forall d :: fetch(d).Some? ==> WellFormed(fetch(d).value)
  }

  /** Collecting one more day is one more step of the loop. */
  lemma CollectedSnoc(days: seq<Date>, d: Date, fetch: Date -> Option<Frame>)
    ensures Collected(days + [d], fetch)
            == if fetch(d).Some? then Collected(days, fetch) + [Stamped(fetch(d).value, d)] else Collected(days, fetch)
  {
    assert (days + [d])[..|days|] == days;
  }

  /** The k-th collected table is the k-th successful day's table, stamped
      with that day. */
  lemma {:induction false} CollectedSpec(days: seq<Date>, fetch: Date -> Option<Frame>)
    ensures |Collected(days, fetch)| == |Fetched(days, fetch)|
    ensures forall k :: 0 <= k < |Fetched(days, fetch)| ==>
              fetch(Fetched(days, fetch)[k]).Some?
              && Collected(days, fetch)[k] == Stamped(fetch(Fetched(days, fetch)[k]).value, Fetched(days, fetch)[k])
  {
    if days != [] {
      CollectedSpec(days[..|days| - 1], fetch);
    }
  }

  /** Exactly the successful days are kept ... */
  lemma {:induction false} FetchedMembers(days: seq<Date>, fetch: Date -> Option<Frame>)
    ensures forall d :: d in Fetched(days, fetch) <==> d in days && fetch(d).Some?
  {
    if days != [] {
      var init := days[..|days| - 1];
      FetchedMembers(init, fetch);
      assert days == init + [days[|days| - 1]];
    }
  }

  /** ... and they keep the order of the days tried. */
  lemma {:induction false} FetchedIncreasing(days: seq<Date>, fetch: Date -> Option<Frame>)
    requires forall i, j :: 0 <= i < j < |days| ==> Lt(days[i], days[j])
    ensures forall i, j :: 0 <= i < j < |Fetched(days, fetch)| ==> Lt(Fetched(days, fetch)[i], Fetched(days, fetch)[j])
  {
    if days != [] {
      var init := days[..|days| - 1];
      var d := days[|days| - 1];
      FetchedIncreasing(init, fetch);
      FetchedMembers(init, fetch);
      var rest := Fetched(init, fetch);
      forall i | 0 <= i < |rest| ensures Lt(rest[i], d) {
        assert rest[i] in init;
        var p :| 0 <= p < |init| && init[p] == rest[i];
        assert days[p] == init[p];
      }
    }
  }

  /** The run fails exactly when no day in the range could be downloaded. */
  lemma DownloadFails(start: Date, today: Date, fetch: Date -> Option<Frame>)
    requires Valid(start) && Valid(today)
    ensures DownloadResult(start, today, fetch).Err?
            <==> forall d :: d in DaysFrom(start, today) ==> fetch(d).None?
  {
    var days := DaysFrom(start, today);
    CollectedSpec(days, fetch);
    FetchedMembers(days, fetch);
    if Fetched(days, fetch) != [] {
      assert Fetched(days, fetch)[0] in Fetched(days, fetch);
    }
  }

  /** A successful run returns the successful days' tables in chronological
      order: every row carries the day it was downloaded for, and the row
      count is the sum of the days' row counts. */
  lemma DownloadRows(start: Date, today: Date, fetch: Date -> Option<Frame>)
    requires Valid(start) && Valid(today) && FetchWellFormed(fetch)
    requires DownloadResult(start, today, fetch).Ok?
    ensures var t := DownloadResult(start, today, fetch).value;
            var days := Fetched(DaysFrom(start, today), fetch);
            WellFormed(t) && |t.rows| == RowCount(Collected(DaysFrom(start, today), fetch))
            && (forall i, j :: 0 <= i < j < |days| ==> Lt(days[i], days[j]))
            && forall i :: 0 <= i < |t.rows| ==>
                 "Date" in t.rows[i] && exists k :: 0 <= k < |days| && t.rows[i]["Date"] == When(days[k])
  {
    var range := DaysFrom(start, today);
    var fs := Collected(range, fetch);
    var days := Fetched(range, fetch);
    CollectedSpec(range, fetch);
    forall i, j | 0 <= i < j < |range| ensures Lt(range[i], range[j]) {
      DaysFromIncreasing(start, today, i, j);
    }
    FetchedIncreasing(range, fetch);
    assert AllWellFormed(fs);
    ConcatAllWellFormed(fs);
    var vals := seq(|days|, k requires 0 <= k < |days| => When(days[k]));
    ColumnValues(fs, "Date", vals, AllColumns(fs));
  }

  // ---------------------------------------------------------------------------
  // _process_data: back-filling and coercion

  const StateEssential: seq<string> := [
    "Province_State", "Confirmed", "Deaths", "Recovered",
    "Active", "Incident_Rate", "Total_Test_Results",
    "Hospitalization_Rate", "Case_Fatality_Ratio"]

  /** `[col for col in essential_columns if col != 'Province_State']`. */
  const StateNumeric: seq<string> := [
    "Confirmed", "Deaths", "Recovered",
    "Active", "Incident_Rate", "Total_Test_Results",
    "Hospitalization_Rate", "Case_Fatality_Ratio"]

  const StateNumericSet: set<string> := {
    "Confirmed", "Deaths", "Recovered",
    "Active", "Incident_Rate", "Total_Test_Results",
    "Hospitalization_Rate", "Case_Fatality_Ratio"}

  /** `0 if col != 'Province_State' else ''`. */
  function StateDefault(col: string): Cell {
    if col != "Province_State" then Int(0) else Text("")
  }

  /** The numeric columns are the essential ones other than Province_State. */
  lemma StateLabels()
    ensures StateEssential == ["Province_State"] + StateNumeric
    ensures forall c :: c in StateNumeric <==> c in StateNumericSet
    ensures "Province_State" !in StateNumericSet
  {
  }

  lemma MetricLabels()
    ensures forall m :: ColumnOf(m) in StateNumericSet
  {
  }

  /** A row after both column loops of `_process_data`. */
  function PrepareState(row: Row): Row {
    Coerce(Fill(row, StateEssential, StateDefault), StateNumeric)
  }

  /** The prepared row has exactly the row's columns and the essential ones ... */
  lemma PreparedKeys(row: Row)
    ensures forall c :: c in PrepareState(row) <==> c in row || c == "Province_State" || c in StateNumericSet
  {
    StateLabels();
  }

  /** ... a missing Province_State becomes '' and a present one is kept ... */
  lemma PreparedProvince(row: Row)
    ensures "Province_State" in PrepareState(row)
    ensures PrepareState(row)["Province_State"] == if "Province_State" in row then row["Province_State"] else Text("")
  {
    var filled := Fill(row, StateEssential, StateDefault);
    assert StateEssential[0] == "Province_State";
    assert filled["Province_State"] == if "Province_State" in row then row["Province_State"] else Text("");
    StateLabels();
    assert "Province_State" !in StateNumeric;
  }

  /** ... every numeric column holds its value coerced to a number, 0 when it
      was missing or does not parse ... */
  lemma PreparedNumeric(row: Row, c: string)
    requires c in StateNumericSet
    ensures c in PrepareState(row) && PrepareState(row)[c] == Int(ToNumber(Get(row, c)))
  {
    StateLabels();
    var filled := Fill(row, StateEssential, StateDefault);
    assert c in StateNumeric && c in StateEssential;
    assert StateDefault(c) == Int(0);
    assert filled[c] == if c in row then row[c] else Int(0);
    assert ToNumber(filled[c]) == ToNumber(Get(row, c));
  }

  /** ... and every other column is left alone. */
  lemma PreparedOthers(row: Row, c: string)
    requires c in row && c != "Province_State" && c !in StateNumericSet
    ensures c in PrepareState(row) && PrepareState(row)[c] == row[c]
  {
    StateLabels();
  }

  // ---------------------------------------------------------------------------
  // _process_data: per-state changes and trailing means

  /** The latest row before `j` whose key is `key`. */
  function Latest(keys: seq<Cell>, key: Cell, j: int): (r: Option<nat>)
    requires 0 <= j <= |keys|
    ensures r.Some? ==> r.value < j && keys[r.value] == key
  {
    if j == 0 then None
    else if keys[j - 1] == key then Some(j - 1)
    else Latest(keys, key, j - 1)
  }

  /** No row strictly between the one found and `j` has the key, and when none
      is found no row before `j` has it. */
  lemma {:induction false} LatestIsLatest(keys: seq<Cell>, key: Cell, j: int)
    requires 0 <= j <= |keys|
    ensures Latest(keys, key, j).Some? ==> forall q :: Latest(keys, key, j).value < q < j ==> keys[q] != key
    ensures Latest(keys, key, j).None? ==> forall q :: 0 <= q < j ==> keys[q] != key
  {
    if j > 0 && keys[j - 1] != key {
      LatestIsLatest(keys, key, j - 1);
    }
  }

  /** Number of rows before `j` whose key is `key`. */
  function Occurrences(keys: seq<Cell>, key: Cell, j: int): nat
    requires 0 <= j <= |keys|
  {
    if j == 0 then 0 else Occurrences(keys, key, j - 1) + (if keys[j - 1] == key then 1 else 0)
  }

  lemma {:induction false} OccurrencesGap(keys: seq<Cell>, key: Cell, a: int, b: int)
    requires 0 <= a <= b <= |keys|
    requires forall q :: a <= q < b ==> keys[q] != key
    ensures Occurrences(keys, key, b) == Occurrences(keys, key, a)
    decreases b
  {
    if a < b {
      OccurrencesGap(keys, key, a, b - 1);
    }
  }

  /** `df.groupby('Province_State')[col].diff().fillna(0)` at row i: the change
      from the previous row of the same state, 0 for a state's first row and
      for a row without a state (groupby leaves those out; fillna makes them 0). */
  function NewAt(keys: seq<Cell>, vals: seq<int>, i: int): int
    requires |vals| == |keys| && 0 <= i < |keys|
  {
    if keys[i].Null? then 0
    else match Latest(keys, keys[i], i)
      case None => 0
      case Some(p) => vals[i] - vals[p]
  }

  /** The `New_{col}` column. */
  function Changes(keys: seq<Cell>, vals: seq<int>): (r: seq<int>)
    requires |vals| == |keys|
    ensures |r| == |keys| && forall i :: 0 <= i < |keys| ==> r[i] == NewAt(keys, vals, i)
  {
    seq(|keys|, i requires 0 <= i < |keys| => NewAt(keys, vals, i))
  }

  /** The rows of the window `rolling(n)` ends at row i within i's state:
      the state's last n rows up to and including i, or all of them when the
      state has fewer. */
  function LastRows(keys: seq<Cell>, i: int, n: nat): (w: seq<nat>)
    requires 0 <= i < |keys|
    ensures |w| <= n && forall t :: 0 <= t < |w| ==> w[t] <= i
    ensures n > 0 ==> |w| > 0 && w[|w| - 1] == i
    decreases n
  {
    if n == 0 then []
    else match Latest(keys, keys[i], i)
      case None => [i]
      case Some(p) => LastRows(keys, p, n - 1) + [i]
  }

  function Min(a: int, b: int): int {
    if a <= b then a else b
  }

  /** The window holds min(n, rank) rows, where rank counts the state's rows
      up to and including i ... */
  lemma {:induction false} LastRowsLength(keys: seq<Cell>, i: int, n: nat)
    requires 0 <= i < |keys|
    ensures |LastRows(keys, i, n)| == Min(n, Occurrences(keys, keys[i], i + 1))
    decreases n
  {
    var key := keys[i];
    LatestIsLatest(keys, key, i);
    if n > 0 {
      match Latest(keys, key, i)
      case None =>
        OccurrencesGap(keys, key, 0, i);
      case Some(p) =>
        LastRowsLength(keys, p, n - 1);
        OccurrencesGap(keys, key, p + 1, i);
    }
  }

  /** ... all of them rows of i's state, in increasing order ... */
  lemma {:induction false} LastRowsOrdered(keys: seq<Cell>, i: int, n: nat)
    requires 0 <= i < |keys|
    ensures forall t :: 0 <= t < |LastRows(keys, i, n)| ==> keys[LastRows(keys, i, n)[t]] == keys[i]
    ensures forall t :: 0 <= t < |LastRows(keys, i, n)| - 1 ==> LastRows(keys, i, n)[t] < LastRows(keys, i, n)[t + 1]
    decreases n
  {
    if n > 0 {
      match Latest(keys, keys[i], i)
      case None =>
      case Some(p) =>
        LastRowsOrdered(keys, p, n - 1);
    }
  }

  /** ... with no row of the state skipped between them, and, when the state
      has fewer than n rows, starting at its first row. */
  lemma {:induction false} LastRowsGapless(keys: seq<Cell>, i: int, n: nat)
    requires 0 <= i < |keys|
    ensures var w := LastRows(keys, i, n);
            (forall t, q :: 0 <= t < |w| - 1 && w[t] < q < w[t + 1] ==> keys[q] != keys[i])
            && (0 < |w| < n ==> forall q :: 0 <= q < w[0] ==> keys[q] != keys[i])
    decreases n
  {
    LatestIsLatest(keys, keys[i], i);
    if n > 0 {
      match Latest(keys, keys[i], i)
      case None =>
      case Some(p) =>
        LastRowsGapless(keys, p, n - 1);
        var v := LastRows(keys, p, n - 1);
        assert LastRows(keys, i, n) == v + [i];
        if |v| > 0 {
          assert (v + [i])[0] == v[0];
        }
    }
  }

  function SumAt(vals: seq<int>, w: seq<nat>): int
    requires forall t :: 0 <= t < |w| ==> w[t] < |vals|
  {
    if w == [] then 0 else SumAt(vals, w[..|w| - 1]) + vals[w[|w| - 1]]
  }

  /** `df.groupby('Province_State')[f'New_{col}'].rolling(7).mean()` at row i:
      with pandas' default `min_periods=7`, defined only once the state has 7
      rows, and then the exact mean of its last 7 changes. */
  function MA7At(keys: seq<Cell>, news: seq<int>, i: int): Option<real>
    requires |news| == |keys| && 0 <= i < |keys|
  {
    if keys[i].Null? then None
    else
      var w := LastRows(keys, i, 7);
      if |w| < 7 then None else Some(SumAt(news, w) as real / 7.0)
  }

  /** The `New_{col}_MA7` column. */
  function Means7(keys: seq<Cell>, news: seq<int>): (r: seq<Option<real>>)
    requires |news| == |keys|
    ensures |r| == |keys| && forall i :: 0 <= i < |keys| ==> r[i] == MA7At(keys, news, i)
  {
    seq(|keys|, i requires 0 <= i < |keys| => MA7At(keys, news, i))
  }

  /** A state's first row has change 0. */
  lemma NewAtFirst(keys: seq<Cell>, vals: seq<int>, i: int)
    requires |vals| == |keys| && 0 <= i < |keys|
    requires forall q :: 0 <= q < i ==> keys[q] != keys[i]
    ensures NewAt(keys, vals, i) == 0
  {
  }

  /** Any other row of a state has the difference to the state's previous
      row, however far back that row is. */
  lemma NewAtPrevious(keys: seq<Cell>, vals: seq<int>, i: int, p: int)
    requires |vals| == |keys| && 0 <= p < i < |keys| && !keys[i].Null?
    requires keys[p] == keys[i] && forall q :: p < q < i ==> keys[q] != keys[i]
    ensures NewAt(keys, vals, i) == vals[i] - vals[p]
  {
    LatestIsLatest(keys, keys[i], i);
  }

  /** The change is not clipped: wherever a state's count falls below its
      value on the state's previous row, the change is negative. */
  lemma NewAtNegative(keys: seq<Cell>, vals: seq<int>, i: int, p: int)
    requires |vals| == |keys| && 0 <= p < i < |keys| && !keys[i].Null?
    requires keys[p] == keys[i] && forall q :: p < q < i ==> keys[q] != keys[i]
    requires vals[i] < vals[p]
    ensures NewAt(keys, vals, i) < 0
  {
    NewAtPrevious(keys, vals, i, p);
  }

  /** The mean is undefined exactly for rows without a state and for a
      state's first 6 rows. */
  lemma MA7Defined(keys: seq<Cell>, news: seq<int>, i: int)
    requires |news| == |keys| && 0 <= i < |keys|
    ensures MA7At(keys, news, i).Some? <==> !keys[i].Null? && Occurrences(keys, keys[i], i + 1) >= 7
  {
    LastRowsLength(keys, i, 7);
  }

  lemma SumOfSeven(vals: seq<int>, w: seq<nat>)
    requires |w| == 7 && forall t :: 0 <= t < 7 ==> w[t] < |vals|
    ensures SumAt(vals, w) == vals[w[0]] + vals[w[1]] + vals[w[2]] + vals[w[3]] + vals[w[4]] + vals[w[5]] + vals[w[6]]
  {
    assert SumAt(vals, w) == SumAt(vals, w[..6]) + vals[w[6]];
    assert w[..6][..5] == w[..5];
    assert SumAt(vals, w[..6]) == SumAt(vals, w[..5]) + vals[w[5]];
    assert w[..5][..4] == w[..4];
    assert SumAt(vals, w[..5]) == SumAt(vals, w[..4]) + vals[w[4]];
    assert w[..4][..3] == w[..3];
    assert SumAt(vals, w[..4]) == SumAt(vals, w[..3]) + vals[w[3]];
    assert w[..3][..2] == w[..2];
    assert SumAt(vals, w[..3]) == SumAt(vals, w[..2]) + vals[w[2]];
    assert w[..2][..1] == w[..1];
    assert SumAt(vals, w[..2]) == SumAt(vals, w[..1]) + vals[w[1]];
    assert w[..1][..0] == [];
    assert SumAt(vals, w[..1]) == vals[w[0]];
  }

  /** Once defined, the mean is the sum of the changes over the state's last 7
      rows (row i and the 6 rows of its state before it, as `LastRowsOrdered`
      and `LastRowsGapless` describe them), divided by 7. */
  lemma MA7Value(keys: seq<Cell>, news: seq<int>, i: int)
    requires |news| == |keys| && 0 <= i < |keys|
    requires MA7At(keys, news, i).Some?
    ensures var w := LastRows(keys, i, 7);
            |w| == 7 && w[6] == i
            && MA7At(keys, news, i)
               == Some((news[w[0]] + news[w[1]] + news[w[2]] + news[w[3]] + news[w[4]] + news[w[5]] + news[w[6]]) as real / 7.0)
  {
    var w := LastRows(keys, i, 7);
    assert |w| == 7;
    SumOfSeven(news, w);
  }

  // ---------------------------------------------------------------------------
  // _process_data as a whole

  /** The four trailing means of one row. */
  type Means = PerMetric<Option<real>>

  const NoMeans: Means := PerMetric(None, None, None, None)

  /** A row of the processed table: the prepared row with its `New_{col}` and
      `New_{col}_MA7` values. */
  datatype StateDay = StateDay(row: Row, increase: Counts, average: Means)

  function StateRows(df: Frame): (r: seq<Row>)
    ensures |r| == |df.rows| && forall i :: 0 <= i < |df.rows| ==> r[i] == PrepareState(df.rows[i])
  {
    seq(|df.rows|, i requires 0 <= i < |df.rows| => PrepareState(df.rows[i]))
  }

  /** The `Province_State` column; a missing value is Null. */
  function StateKeys(rows: seq<Row>): (r: seq<Cell>)
    ensures |r| == |rows| && forall i :: 0 <= i < |rows| ==> r[i] == Get(rows[i], "Province_State")
  {
    seq(|rows|, i requires 0 <= i < |rows| => Get(rows[i], "Province_State"))
  }

  /** A metric's column, as numbers. */
  function Column(rows: seq<Row>, m: Metric): (r: seq<int>)
    ensures |r| == |rows| && forall i :: 0 <= i < |rows| ==> r[i] == ToNumber(Get(rows[i], ColumnOf(m)))
  {
    seq(|rows|, i requires 0 <= i < |rows| => ToNumber(Get(rows[i], ColumnOf(m))))
  }

  /** Row i's changes and means after the metric loop has handled its first k
      metrics. */
  function IncreaseSoFar(rows: seq<Row>, i: int, k: int): Counts
    requires 0 <= i < |rows| && 0 <= k <= |Metrics|
  {
    if k == 0 then Zero
    else
      var m := Metrics[k - 1];
      IncreaseSoFar(rows, i, k - 1).Set(m, Changes(StateKeys(rows), Column(rows, m))[i])
  }

  function AverageSoFar(rows: seq<Row>, i: int, k: int): Means
    requires 0 <= i < |rows| && 0 <= k <= |Metrics|
  {
    if k == 0 then NoMeans
    else
      var m := Metrics[k - 1];
      var keys := StateKeys(rows);
      AverageSoFar(rows, i, k - 1).Set(m, Means7(keys, Changes(keys, Column(rows, m)))[i])
  }

  /** The rows after the metric loop has handled its first k metrics. */
  ghost predicate MetricsDone(rows: seq<Row>, out: seq<StateDay>, k: int)
    requires 0 <= k <= |Metrics|
  {
    |out| == |rows|
    && forall i :: 0 <= i < |out| ==> out[i] == StateDay(rows[i], IncreaseSoFar(rows, i, k), AverageSoFar(rows, i, k))
  }

  lemma MetricStep(rows: seq<Row>, out: seq<StateDay>, k: int, out': seq<StateDay>)
    requires 0 <= k < |Metrics| && MetricsDone(rows, out, k)
    requires var m := Metrics[k];
             var keys := StateKeys(rows);
             var news := Changes(keys, Column(rows, m));
             |out'| == |out|
             && forall i :: 0 <= i < |out| ==>
                  out'[i] == out[i].(increase := out[i].increase.Set(m, news[i]),
                                     average := out[i].average.Set(m, Means7(keys, news)[i]))
    ensures MetricsDone(rows, out', k + 1)
  {
  }

  /** One pass of the metric loop: row i gets the change `news[i]` and the
      mean `means[i]` for `m`. */
  function WithMetric(out: seq<StateDay>, m: Metric, news: seq<int>, means: seq<Option<real>>): (r: seq<StateDay>)
    requires |news| == |out| && |means| == |out|
    ensures |r| == |out|
    ensures forall i :: 0 <= i < |out| ==>
              r[i] == out[i].(increase := out[i].increase.Set(m, news[i]), average := out[i].average.Set(m, means[i]))
  {
    seq(|out|, i requires 0 <= i < |out| =>
      out[i].(increase := out[i].increase.Set(m, news[i]), average := out[i].average.Set(m, means[i])))
  }

  /** What `_process_data` returns for a table. */
  function Processed(df: Frame): seq<StateDay> {
    var rows := StateRows(df);
    seq(|rows|, i requires 0 <= i < |rows| =>
      StateDay(rows[i], IncreaseSoFar(rows, i, |Metrics|), AverageSoFar(rows, i, |Metrics|)))
  }

  lemma SoFarAll(rows: seq<Row>, i: int)
    requires 0 <= i < |rows|
    ensures forall m :: IncreaseSoFar(rows, i, |Metrics|).Get(m) == Changes(StateKeys(rows), Column(rows, m))[i]
    ensures forall m :: AverageSoFar(rows, i, |Metrics|).Get(m)
                        == Means7(StateKeys(rows), Changes(StateKeys(rows), Column(rows, m)))[i]
  {
    var keys := StateKeys(rows);
    assert IncreaseSoFar(rows, i, 0) == Zero;
    assert AverageSoFar(rows, i, 0) == NoMeans;
    var c1, c2, c3, c4 := IncreaseSoFar(rows, i, 1), IncreaseSoFar(rows, i, 2), IncreaseSoFar(rows, i, 3), IncreaseSoFar(rows, i, 4);
    assert c1 == Zero.Set(Confirmed, Changes(keys, Column(rows, Confirmed))[i]);
    assert c2 == c1.Set(Deaths, Changes(keys, Column(rows, Deaths))[i]);
    assert c3 == c2.Set(Recovered, Changes(keys, Column(rows, Recovered))[i]);
    assert c4 == c3.Set(Active, Changes(keys, Column(rows, Active))[i]);
    var a1, a2, a3, a4 := AverageSoFar(rows, i, 1), AverageSoFar(rows, i, 2), AverageSoFar(rows, i, 3), AverageSoFar(rows, i, 4);
    assert a1 == NoMeans.Set(Confirmed, Means7(keys, Changes(keys, Column(rows, Confirmed)))[i]);
    assert a2 == a1.Set(Deaths, Means7(keys, Changes(keys, Column(rows, Deaths)))[i]);
    assert a3 == a2.Set(Recovered, Means7(keys, Changes(keys, Column(rows, Recovered)))[i]);
    assert a4 == a3.Set(Active, Means7(keys, Changes(keys, Column(rows, Active)))[i]);
  }

  /** Every row of the processed table is the prepared input row, with each
      metric's change from the state's previous row and its 7-row mean. */
  lemma ProcessedSpec(df: Frame, i: int, m: Metric)
    requires 0 <= i < |df.rows|
    ensures var rows := StateRows(df);
            var keys := StateKeys(rows);
            |Processed(df)| == |df.rows|
            && Processed(df)[i].row == PrepareState(df.rows[i])
            && Processed(df)[i].increase.Get(m) == NewAt(keys, Column(rows, m), i)
            && Processed(df)[i].average.Get(m) == MA7At(keys, Changes(keys, Column(rows, m)), i)
  {
    SoFarAll(StateRows(df), i);
  }

  /** The state and the counts the changes are taken over are those of the
      prepared rows: a missing Province_State is '', a count that does not
      parse is 0. */
  lemma ProcessedInputs(df: Frame, i: int, m: Metric)
    requires 0 <= i < |df.rows|
    ensures var rows := StateRows(df);
            StateKeys(rows)[i] == (if "Province_State" in df.rows[i] then df.rows[i]["Province_State"] else Text(""))
            && Column(rows, m)[i] == ToNumber(Get(df.rows[i], ColumnOf(m)))
  {
    PreparedProvince(df.rows[i]);
    MetricLabels();
    PreparedNumeric(df.rows[i], ColumnOf(m));
  }

  // ---------------------------------------------------------------------------
  // The loader

  /** The cache file as `load_data` finds it: absent, present but failing to
      read (or its Date column failing to parse), or holding a table. */
  datatype CacheFile = Absent | Unreadable | Stored(table: Frame)

  /** `load_data` reads the cache only when refreshing is not forced and the
      file exists; the read falls through to a download when it fails or the
      table has no Date column. */
  predicate UsesCache(cache: CacheFile, forceRefresh: bool) {
    !forceRefresh && cache.Stored? && "Date" in cache.table.columns
  }

  /** What `load_data` returns. */
  function LoadResult(cache: CacheFile, forceRefresh: bool, today: Date, fetch: Date -> Option<Frame>)
    : Result<seq<StateDay>, LoadError>
    requires Valid(today)
  {
    if UsesCache(cache, forceRefresh) then Ok(Processed(cache.table))
    else match DownloadResult(FirstUsDay, today, fetch)
      case Err(e) => Err(e)
      case Ok(t) => Ok(Processed(t))
  }

  /** Every successful load is `_process_data` of the cached table or of a
      fresh download, and the cache is used exactly when refreshing is not
      forced and it holds a table with a Date column. */
  lemma LoadResultSpec(cache: CacheFile, forceRefresh: bool, today: Date, fetch: Date -> Option<Frame>)
    requires Valid(today)
    ensures UsesCache(cache, forceRefresh) ==> LoadResult(cache, forceRefresh, today, fetch) == Ok(Processed(cache.table))
    ensures !UsesCache(cache, forceRefresh) ==>
              (LoadResult(cache, forceRefresh, today, fetch).Err?
               <==> forall d :: d in DaysFrom(FirstUsDay, today) ==> fetch(d).None?)
    ensures forceRefresh ==> LoadResult(cache, forceRefresh, today, fetch) == LoadResult(Absent, false, today, fetch)
  {
    DownloadFails(FirstUsDay, today, fetch);
  }

  class DataLoader {
    var cache: CacheFile

    /** A cached table is rectangular, as every table written by the loader is. */
    ghost predicate Valid()
      reads this
    {
      cache.Stored? ==> WellFormed(cache.table)
    }

    /** The loader over a cache file found in state `existing`. */
    constructor(existing: CacheFile)
      requires existing.Stored? ==> WellFormed(existing.table)
      ensures Valid() && cache == existing
    {
      cache := existing;
    }

    /** `download_data`: the day loop from `start` (default 2020-04-12) to
        `today` inclusive; `fetch(d)` is the table at `DayUrl(d)`, or None when reading
        it raised. `visited` is the list of days tried. */
    method DownloadData(start: Option<Date>, today: Date, fetch: Date -> Option<Frame>)
      returns (r: Result<Frame, LoadError>, ghost visited: seq<Date>)
      requires Valid() && Dates.Valid(today) && (start.Some? ==> Dates.Valid(start.value))
      requires FetchWellFormed(fetch)
      modifies this
      ensures Valid()
      ensures visited == DaysFrom(StartOf(start), today)
      ensures r == DownloadResult(StartOf(start), today, fetch)
      ensures r.Ok? ==> cache == Stored(r.value)
      ensures r.Err? ==> cache == old(cache)
    {
      var startDate := if start.None? then FirstUsDay else start.value;
      ghost var all := DaysFrom(startDate, today);
      var allData: seq<Frame> := [];
      var current := startDate;
      visited := [];
      ScheduleStart(startDate, today);
      while Le(current, today)
        invariant OnSchedule(all, visited, current, today)
        invariant allData == Collected(visited, fetch)
        invariant cache == old(cache)
        decreases |all| - |visited|
      {
        ScheduleStep(startDate, today, visited, current);
        CollectedSnoc(visited, current, fetch);
        var got := fetch(current);
        if got.Some? {
          allData := allData + [Stamped(got.value, current)];
        }
        visited := visited + [current];
        current := NextDay(current);
      }
      ScheduleEnd(startDate, today, visited, current);
      assert visited == all;
      if allData == [] {
        r := Err(NoDataDownloaded);
      } else {
        CollectedSpec(visited, fetch);
        assert AllWellFormed(allData);
        ConcatAllWellFormed(allData);
        var combined := ConcatAll(allData);
        cache := Stored(combined);
        r := Ok(combined);
      }
    }

    /** `load_data`: the cached table when it can be used, otherwise a fresh
        download; either way through `_process_data`. */
    method LoadData(forceRefresh: bool, today: Date, fetch: Date -> Option<Frame>)
      returns (r: Result<seq<StateDay>, LoadError>)
      requires Valid() && Dates.Valid(today) && FetchWellFormed(fetch)
      modifies this
      ensures Valid()
      ensures r == LoadResult(old(cache), forceRefresh, today, fetch)
      ensures UsesCache(old(cache), forceRefresh) || r.Err? ==> cache == old(cache)
      ensures !UsesCache(old(cache), forceRefresh) && r.Ok? ==> cache == Stored(DownloadResult(FirstUsDay, today, fetch).value)
    {
      if !forceRefresh && cache.Stored? && "Date" in cache.table.columns {
        var out := ProcessData(cache.table);
        return Ok(out);
      }
      var downloaded, _ := DownloadData(None, today, fetch);
      match downloaded
      case Err(e) =>
        r := Err(e);
      case Ok(t) =>
        var out := ProcessData(t);
        r := Ok(out);
    }

    /** The two loops at the top of `_process_data`: back-fill the essential
        columns, then coerce the numeric ones. */
    static method PrepareStates(df: Frame) returns (f: Frame)
      requires WellFormed(df)
      ensures WellFormed(f) && f.rows == StateRows(df)
    {
      f := FillColumns(df, StateEssential, StateDefault);
      f := CoerceColumns(f, StateNumeric);
    }

    /** `_process_data`: the two column loops, then for each metric its change
        and trailing-mean columns. */
    static method ProcessData(df: Frame) returns (out: seq<StateDay>)
      requires WellFormed(df)
      ensures out == Processed(df)
    {
      var f := PrepareStates(df);
      ghost var rows := StateRows(df);
      var keys := seq(|f.rows|, i requires 0 <= i < |f.rows| => Get(f.rows[i], "Province_State"));
      assert keys == StateKeys(rows);
      out := seq(|f.rows|, i requires 0 <= i < |f.rows| => StateDay(f.rows[i], Zero, NoMeans));
      var k := 0;
      while k < |Metrics|
        invariant 0 <= k <= |Metrics|
        invariant MetricsDone(rows, out, k)
      {
        var m := Metrics[k];
        var vals := seq(|f.rows|, i requires 0 <= i < |f.rows| => ToNumber(Get(f.rows[i], ColumnOf(m))));
        assert vals == Column(rows, m);
        var news := Changes(keys, vals);
        var means := Means7(keys, news);
        ghost var before := out;
        out := WithMetric(out, m, news, means);
        MetricStep(rows, before, k, out);
        k := k + 1;
      }
      ghost var p := Processed(df);
      forall i | 0 <= i < |out| ensures out[i] == p[i] { }
    }
  }
}
