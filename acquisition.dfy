/** Fetching the global daily reports one calendar day at a time into a
    directory of `<MM-DD-YYYY>.csv` files, and combining that directory into
    one table. The remote server and the directory are values handed in. */
module Acquisition {
  import opened Wrappers
  import opened Dates
  import opened Strings
  import opened Frames

  const BaseUrl: string := "https://raw.githubusercontent.com/CSSEGISandData/COVID-19/master/csse_covid_19_data/csse_covid_19_daily_reports/"
  const RawDir: string := "data/raw/daily_reports/"

  /** The first day the repository publishes a global report. */
  const FirstDay: Date := Date(2020, 1, 22)

  /** `f"{date_str}.csv"`. */
  function FileName(d: Date): string
    requires Valid(d)
  {
    Format(d) + ".csv"
  }

  function FileUrl(d: Date): string
    requires Valid(d)
  {
    BaseUrl + FileName(d)
  }

  function LocalPath(d: Date): string
    requires Valid(d)
  {
    RawDir + FileName(d)
  }

  /** `file[:-4]`: the name without its last four characters. */
  function Stem(name: string): string {
    if |name| < 4 then [] else name[..|name| - 4]
  }

  /** The remote URL and the local file are named by the same date string, and
      cutting the suffix off the file name (as the combining step does) or
      parsing that stem gives back the date. */
  lemma FileNameRoundTrip(d: Date)
    requires Valid(d)
    ensures FileUrl(d) == BaseUrl + Format(d) + ".csv" && LocalPath(d) == RawDir + Format(d) + ".csv"
    ensures EndsWith(FileName(d), ".csv")
    ensures Stem(FileName(d)) == Format(d)
    ensures Parse(Stem(FileName(d))) == Some(d)
  {
    var name := FileName(d);
    assert name[..|name| - 4] == Format(d);
    assert name[|name| - 4..] == ".csv";
    ParseFormat(d);
  }

  /** Distinct days get distinct file names. */
  lemma FileNameInjective(a: Date, b: Date)
    requires Valid(a) && Valid(b) && FileName(a) == FileName(b)
    ensures a == b
  {
    assert Stem(FileName(a)) == Format(a) && Stem(FileName(b)) == Format(b) by {
      FileNameRoundTrip(a);
      FileNameRoundTrip(b);
    }
    FormatInjective(a, b);
  }

  // ---------------------------------------------------------------------------
  // download_file

  /** The contents of a downloaded file as `pd.read_csv` sees them: a table,
      or text it raises on (an empty body, a malformed header). */
  datatype CsvFile = Table(table: Frame) | Unparsable

  /** What the server does with one GET: a reply with a status code and the
      file it carries, or a failure before any reply (connection refused,
      timeout, ...). */
  datatype Response = Reply(status: int, content: CsvFile) | Unreachable

  /** `raise_for_status()` raises for client and server error codes. */
  predicate IsErrorStatus(status: int) {
    400 <= status < 600
  }

  /** How one download ended: the file was written, an `HTTPError` was
      raised, or some other exception was raised. */
  datatype Outcome = Saved | HttpFailure | OtherFailure

  datatype Download = Download(dir: map<string, CsvFile>, outcome: Outcome)

  /** `download_file(url, name)` against the directory `dir`: the status is
      checked before the local file is opened, so a failed request leaves the
      directory as it was. */
  function DownloadFile(url: string, name: string, remote: string -> Response, dir: map<string, CsvFile>): (r: Download)
    ensures r.outcome.Saved? <==> remote(url).Reply? && !IsErrorStatus(remote(url).status)
    ensures r.outcome.OtherFailure? <==> remote(url).Unreachable?
    ensures r.outcome.Saved? ==> r.dir == dir[name := remote(url).content]
    ensures !r.outcome.Saved? ==> r.dir == dir
  {
    match remote(url)
    case Unreachable => Download(dir, OtherFailure)
    case Reply(status, content) =>
      if IsErrorStatus(status) then Download(dir, HttpFailure)
      else Download(dir[name := content], Saved)
  }

  predicate Served(remote: string -> Response, d: Date)
    requires Valid(d)
  {
    remote(FileUrl(d)).Reply? && !IsErrorStatus(remote(FileUrl(d)).status)
  }

  /** Fetching the day's file fails with an exception other than `HTTPError`. */
  predicate Unreached(remote: string -> Response, d: Date)
    requires Valid(d)
  {
    remote(FileUrl(d)).Unreachable?
  }

  /** The directory after downloading `days` in order, starting from `dir0`. */
  function Downloaded(dir0: map<string, CsvFile>, days: seq<Date>, remote: string -> Response): map<string, CsvFile>
    requires forall i :: 0 <= i < |days| ==> Valid(days[i])
  {
    if days == [] then dir0
    else
      var d := days[|days| - 1];
      DownloadFile(FileUrl(d), FileName(d), remote, Downloaded(dir0, days[..|days| - 1], remote)).dir
  }

  lemma DownloadedSnoc(dir0: map<string, CsvFile>, days: seq<Date>, d: Date, remote: string -> Response)
    requires forall i :: 0 <= i < |days| ==> Valid(days[i])
    requires Valid(d)
    ensures forall i :: 0 <= i < |days + [d]| ==> Valid((days + [d])[i])
    ensures Downloaded(dir0, days + [d], remote)
            == DownloadFile(FileUrl(d), FileName(d), remote, Downloaded(dir0, days, remote)).dir
  {
    assert (days + [d])[..|days|] == days;
  }

  predicate DistinctDays(days: seq<Date>) {
    forall i, j :: 0 <= i < j < |days| ==> days[i] != days[j]
  }

  /** One download touches only its own name. */
  lemma DownloadFileOther(url: string, name: string, remote: string -> Response, dir: map<string, CsvFile>, other: string)
    requires other != name
    ensures var r := DownloadFile(url, name, remote, dir).dir;
            (other in r <==> other in dir) && (other in dir ==> r[other] == dir[other])
  {
  }

  /** After the downloads, a day's file exists exactly when it existed before
      or the server served it, and a served file holds what the server sent. */
  lemma {:induction false} DownloadedDay(dir0: map<string, CsvFile>, days: seq<Date>, remote: string -> Response, k: int)
    requires forall i :: 0 <= i < |days| ==> Valid(days[i])
    requires DistinctDays(days)
    requires 0 <= k < |days|
    ensures FileName(days[k]) in Downloaded(dir0, days, remote) <==> FileName(days[k]) in dir0 || Served(remote, days[k])
    ensures Served(remote, days[k]) ==>
              Downloaded(dir0, days, remote)[FileName(days[k])] == remote(FileUrl(days[k])).content
    ensures !Served(remote, days[k]) && FileName(days[k]) in dir0 ==>
              Downloaded(dir0, days, remote)[FileName(days[k])] == dir0[FileName(days[k])]
  {
    var init := days[..|days| - 1];
    var last := days[|days| - 1];
    var name := FileName(days[k]);
    var before := Downloaded(dir0, init, remote);
    assert Downloaded(dir0, days, remote) == DownloadFile(FileUrl(last), FileName(last), remote, before).dir;
    if k < |days| - 1 {
      DownloadedDay(dir0, init, remote, k);
      assert init[k] == days[k];
      assert FileName(last) != name by {
        if FileName(last) == name {
          FileNameInjective(last, days[k]);
        }
      }
      DownloadFileOther(FileUrl(last), FileName(last), remote, before, name);
    } else {
      DownloadedLast(dir0, days, remote);
    }
  }

  /** The last day's file is written by the last download and by no earlier one. */
  lemma DownloadedLast(dir0: map<string, CsvFile>, days: seq<Date>, remote: string -> Response)
    requires forall i :: 0 <= i < |days| ==> Valid(days[i])
    requires DistinctDays(days) && days != []
    ensures var last := days[|days| - 1];
            FileName(last) in Downloaded(dir0, days[..|days| - 1], remote) <==> FileName(last) in dir0
    ensures var last := days[|days| - 1];
            FileName(last) in dir0 ==> Downloaded(dir0, days[..|days| - 1], remote)[FileName(last)] == dir0[FileName(last)]
  {
    var init := days[..|days| - 1];
    var last := days[|days| - 1];
    forall i | 0 <= i < |init| ensures FileName(init[i]) != FileName(last) {
      assert init[i] == days[i];
      if FileName(init[i]) == FileName(last) {
        FileNameInjective(init[i], last);
      }
    }
    DownloadedUntouched(dir0, init, remote, FileName(last));
  }

  /** A name that is not the file name of any of the days is left alone. */
  lemma {:induction false} DownloadedUntouched(dir0: map<string, CsvFile>, days: seq<Date>, remote: string -> Response, name: string)
    requires forall i :: 0 <= i < |days| ==> Valid(days[i])
    requires forall i :: 0 <= i < |days| ==> FileName(days[i]) != name
    ensures name in Downloaded(dir0, days, remote) <==> name in dir0
    ensures name in dir0 ==> Downloaded(dir0, days, remote)[name] == dir0[name]
  {
    if days != [] {
      DownloadedUntouched(dir0, days[..|days| - 1], remote, name);
    }
  }

  // ---------------------------------------------------------------------------
  // fetch_jhu_covid_data

  /** A run either completes or is ended by an exception other than
      `HTTPError`, raised while fetching the given day. */
  datatype RunStatus = Completed | Aborted(at: Date)

  /** One pass of the loop body: build the date string, the URL and the local
      name from the same day, and download; `failed` is set when the exception
      raised is not an `HTTPError`, which ends the run. */
  method FetchDay(current: Date, remote: string -> Response, dir: map<string, CsvFile>)
    returns (dir': map<string, CsvFile>, failed: bool)
    requires Valid(current)
    ensures dir' == DownloadFile(FileUrl(current), FileName(current), remote, dir).dir
    ensures failed == Unreached(remote, current)
  {
    var dateStr := Format(current);
    var fileUrl := BaseUrl + dateStr + ".csv";
    var localName := dateStr + ".csv";
    assert fileUrl == FileUrl(current) && localName == FileName(current);
    var download := DownloadFile(fileUrl, localName, remote, dir);
    dir' := download.dir;
    failed := download.outcome.OtherFailure?;
  }

  /** The download loop: every day from 2020-01-22 to `today` is tried once,
      in order; an HTTP error skips the day, any other failure ends the run.
      `attempted` is the list of days tried, in order. */
  method FetchJhuCovidData(today: Date, remote: string -> Response, dir0: map<string, CsvFile>)
    returns (dir: map<string, CsvFile>, attempted: seq<Date>, status: RunStatus)
    requires Valid(today)
    ensures |attempted| <= |DaysFrom(FirstDay, today)| && attempted == DaysFrom(FirstDay, today)[..|attempted|]
    ensures forall i :: 0 <= i < |attempted| ==> Valid(attempted[i])
    ensures status.Completed? ==> attempted == DaysFrom(FirstDay, today)
    ensures status.Aborted? ==> attempted != [] && status.at == attempted[|attempted| - 1]
    ensures forall i :: 0 <= i < |attempted| - 1 ==> !Unreached(remote, attempted[i])
    ensures status.Completed? <==> forall i :: 0 <= i < |attempted| ==> !Unreached(remote, attempted[i])
    ensures status.Aborted? ==> Unreached(remote, status.at)
    ensures dir == Downloaded(dir0, attempted, remote)
  {
    ghost var all := DaysFrom(FirstDay, today);
    var current := FirstDay;
    dir, attempted, status := dir0, [], Completed;
    ScheduleStart(FirstDay, today);
    while Le(current, today)
      invariant OnSchedule(all, attempted, current, today)
      invariant Reached(dir0, attempted, remote, dir)
      decreases |all| - |attempted|
    {
      ScheduleStep(FirstDay, today, attempted, current);
      var next, failed := FetchDay(current, remote, dir);
      ReachedStep(dir0, attempted, current, remote, dir);
      dir, attempted := next, attempted + [current];
      if failed {
        status := Aborted(current);
        break;
      }
      current := NextDay(current);
    }
    if status.Completed? {
      ScheduleEnd(FirstDay, today, attempted, current);
    }
  }

  /** Every day tried so far was reached, and the directory holds what their
      downloads left. */
  ghost predicate Reached(dir0: map<string, CsvFile>, attempted: seq<Date>, remote: string -> Response, dir: map<string, CsvFile>) {
    (forall i :: 0 <= i < |attempted| ==> Valid(attempted[i]))
    && (forall i :: 0 <= i < |attempted| ==> !Unreached(remote, attempted[i]))
    && dir == Downloaded(dir0, attempted, remote)
  }

  /** One more day tried: the directory is that day's download applied, and the
      earlier days stay reached. */
  lemma ReachedStep(dir0: map<string, CsvFile>, attempted: seq<Date>, d: Date, remote: string -> Response, dir: map<string, CsvFile>)
    requires Reached(dir0, attempted, remote, dir) && Valid(d)
    ensures var more := attempted + [d];
            (forall i :: 0 <= i < |more| ==> Valid(more[i]))
            && (forall i :: 0 <= i < |more| - 1 ==> !Unreached(remote, more[i]))
            && Downloaded(dir0, more, remote) == DownloadFile(FileUrl(d), FileName(d), remote, dir).dir
            && (!Unreached(remote, d) ==> Reached(dir0, more, remote, Downloaded(dir0, more, remote)))
  {
    DownloadedSnoc(dir0, attempted, d, remote);
  }

  // ---------------------------------------------------------------------------
  // combine_daily_reports

  /** A daily file's table with `df['Date'] = file[:-4]`. */
  function Tagged(name: string, dir: map<string, CsvFile>): Frame
    requires name in dir && dir[name].Table?
  {
    SetColumn(dir[name].table, "Date", _ => Text(Stem(name)))
  }

  /** Every one of `names` is a file of `dir` that `pd.read_csv` can read. */
  predicate AllParsed(names: seq<string>, dir: map<string, CsvFile>) {
    forall i :: 0 <= i < |names| ==> names[i] in dir && dir[names[i]].Table?
  }

  function TaggedAll(names: seq<string>, dir: map<string, CsvFile>): (r: seq<Frame>)
    requires AllParsed(names, dir)
    ensures |r| == |names|
    ensures forall i :: 0 <= i < |names| ==> r[i] == Tagged(names[i], dir)
  {
    seq(|names|, i requires 0 <= i < |names| => Tagged(names[i], dir))
  }

  predicate DirWellFormed(dir: map<string, CsvFile>) {
    forall n :: n in dir && dir[n].Table? ==> WellFormed(dir[n].table)
  }

  /** `pd.read_csv` raised on the named file, which ends the run. */
  datatype CombineError = Unreadable(name: string)

  /** The combining loop over the `.csv` entries of the listing, each read
      and tagged with its file name's stem and appended to the result. The
      run succeeds exactly when every `.csv` file can be read; otherwise it
      stops at the first one that cannot. */
  method CombineDailyReports(listing: seq<string>, dir: map<string, CsvFile>) returns (r: Result<Frame, CombineError>)
    requires forall i :: 0 <= i < |listing| ==> listing[i] in dir
    requires DirWellFormed(dir)
    ensures r.Ok? <==> AllParsed(WithSuffix(listing, ".csv"), dir)
    ensures r.Ok? ==> AllParsed(WithSuffix(listing, ".csv"), dir)
                      && r.value == ConcatAll(TaggedAll(WithSuffix(listing, ".csv"), dir))
    ensures r.Err? ==> var csv := WithSuffix(listing, ".csv");
                       exists k :: 0 <= k < |csv| && r.error == Unreadable(csv[k])
                                   && csv[k] in dir && dir[csv[k]].Unparsable? && AllParsed(csv[..k], dir)
  {
    var csvFiles := WithSuffix(listing, ".csv");
    var combined := Empty;
    var k := 0;
    assert TaggedAll(csvFiles[..0], dir) == [];
    while k < |csvFiles|
      invariant 0 <= k <= |csvFiles|
      invariant AllParsed(csvFiles[..k], dir)
      invariant combined == ConcatAll(TaggedAll(csvFiles[..k], dir))
    {
      var file := csvFiles[k];
      assert file in listing;
      if dir[file].Unparsable? {
        assert !AllParsed(csvFiles, dir);
        return Err(Unreadable(file));
      }
      var df := SetColumn(dir[file].table, "Date", _ => Text(file[..|file| - 4]));
      assert df == Tagged(file, dir);
      ghost var done := TaggedAll(csvFiles[..k], dir);
      assert AllWellFormed(done);
      ConcatStep(done, df);
      assert csvFiles[..k + 1] == csvFiles[..k] + [file];
      assert TaggedAll(csvFiles[..k + 1], dir) == done + [df];
      combined := Concat(combined, df);
      k := k + 1;
    }
    assert csvFiles[..k] == csvFiles;
    r := Ok(combined);
  }

  /** The combined table has one row for every row of every `.csv` file, in
      file order: row j of the k-th file is row `RowCount(fs[..k]) + j`, which
      is that file's row with Date set to the file's stem, padded with Null to
      the combined columns. Every row of the combined table is such a row. */
  lemma CombinedRows(listing: seq<string>, dir: map<string, CsvFile>, k: int, j: int)
    requires forall i :: 0 <= i < |listing| ==> listing[i] in dir
    requires DirWellFormed(dir)
    requires AllParsed(WithSuffix(listing, ".csv"), dir)
    requires 0 <= k < |WithSuffix(listing, ".csv")|
    requires 0 <= j < |dir[WithSuffix(listing, ".csv")[k]].table.rows|
    ensures var fs := TaggedAll(WithSuffix(listing, ".csv"), dir);
            WellFormed(ConcatAll(fs)) && |ConcatAll(fs).rows| == RowCount(fs)
    ensures var n := WithSuffix(listing, ".csv")[k];
            var fs := TaggedAll(WithSuffix(listing, ".csv"), dir);
            var combined := ConcatAll(fs);
            RowCount(fs[..k]) + j < |combined.rows|
            && combined.rows[RowCount(fs[..k]) + j] == Pad(dir[n].table.rows[j]["Date" := Text(Stem(n))], combined.columns)
            && combined.rows[RowCount(fs[..k]) + j]["Date"] == Text(Stem(n))
  {
    var csv := WithSuffix(listing, ".csv");
    var fs := TaggedAll(csv, dir);
    assert AllWellFormed(fs);
    ConcatAllWellFormed(fs);
    var n := csv[k];
    assert fs[k].rows[j] == dir[n].table.rows[j]["Date" := Text(Stem(n))];
    ConcatRowAt(fs, AllColumns(fs), k, j);
  }

  /** Every row of the combined table comes from one of the `.csv` files. */
  lemma CombinedRowSource(listing: seq<string>, dir: map<string, CsvFile>, i: int)
    requires AllParsed(WithSuffix(listing, ".csv"), dir)
    requires 0 <= i < |ConcatAll(TaggedAll(WithSuffix(listing, ".csv"), dir)).rows|
    ensures var csv := WithSuffix(listing, ".csv");
            var fs := TaggedAll(csv, dir);
            exists k :: 0 <= k < |csv| && RowCount(fs[..k]) <= i < RowCount(fs[..k]) + |dir[csv[k]].table.rows|
  {
    var fs := TaggedAll(WithSuffix(listing, ".csv"), dir);
    ConcatRowSource(fs, AllColumns(fs), i);
  }
}
