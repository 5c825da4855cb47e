/** Loading the directory of daily reports into one table and cleaning it:
    renaming columns, back-filling the essential ones, coercing counts,
    canonicalising country names and recomputing Active. */
module Etl {
  import opened Wrappers
  import opened Dates
  import opened Strings
  import opened Frames

  // ---------------------------------------------------------------------------
  // load_and_combine_data

  datatype LoadError =
    | ReadFailed(name: string)    // `pd.read_csv` raised on the file
    | BadFileDate(name: string)   // `pd.to_datetime` raised on the file name
    | NothingToConcatenate        // `pd.concat([])` raised

  /** The days a pandas timestamp (nanoseconds since 1970 in 64 bits) can
      hold at midnight: 1677-09-22 to 2262-04-11. */
  predicate InTimestampRange(d: Date) {
    Le(Date(1677, 9, 22), d) && Le(d, Date(2262, 4, 11))
  }

  /** `pd.to_datetime(file.replace('.csv', ''), format='%m-%d-%Y')`: the
      name must parse as a date, and the date must fit a pandas timestamp. */
  function FileDate(name: string): (r: Option<Date>)
    ensures r.Some? ==> Valid(r.value) && InTimestampRange(r.value)
  {
    var d := Parse(ReplaceAll(name, ".csv", ""));
    if d.Some? && InTimestampRange(d.value) then d else None
  }

  /** The file the downloader writes for a day is read back as that day
      exactly when the day fits a pandas timestamp; a later day (3000-01-01,
      say) makes `pd.to_datetime` raise. */
  lemma FileDateOfName(d: Date)
    requires Valid(d)
    ensures FileDate(Format(d) + ".csv") == if InTimestampRange(d) then Some(d) else None
  {
    FormatCharacters(d);
    ReplaceTrailing(Format(d), ".csv", "");
    assert Format(d) + "" == Format(d);
    ParseFormat(d);
  }

  /** `df['Date'] = date`. */
  function TagDate(df: Frame, d: Date): Frame {
    SetColumn(df, "Date", _ => When(d))
  }

  /** `read(name)` is `pd.read_csv` of the file: its table, or None when the
      read raised (an empty or malformed file). */
  ghost predicate ReadsWellFormed(read: string -> Option<Frame>) {
    forall n :: read(n).Some? ==> WellFormed(read(n).value)
  }

  /** The tagged tables of the `.csv` files among `names`, in order, or the
      error raised at the first `.csv` file that cannot be read or whose name
      is not a date. */
  function TagFiles(names: seq<string>, read: string -> Option<Frame>): Result<seq<Frame>, LoadError> {
    if names == [] then Ok([])
    else TagStep(TagFiles(names[..|names| - 1], read), names[|names| - 1], read)
  }

  /** One turn of the loading loop, on the tables gathered so far: the file is
      read before its name is parsed. */
  function TagStep(sofar: Result<seq<Frame>, LoadError>, name: string, read: string -> Option<Frame>): Result<seq<Frame>, LoadError> {
    match sofar
    case Err(e) => Err(e)
    case Ok(fs) =>
      if !EndsWith(name, ".csv") then Ok(fs)
      else if read(name).None? then Err(ReadFailed(name))
      else if FileDate(name).None? then Err(BadFileDate(name))
      else Ok(fs + [TagDate(read(name).value, FileDate(name).value)])
  }

  /** `pd.concat(all_data, ignore_index=True)`, which raises on an empty list. */
  function Combine(tagged: Result<seq<Frame>, LoadError>): Result<Frame, LoadError> {
    match tagged
    case Err(e) => Err(e)
    case Ok(fs) => if fs == [] then Err(NothingToConcatenate) else Ok(ConcatAll(fs))
  }

  lemma {:induction false} TagFilesErrorStays(names: seq<string>, read: string -> Option<Frame>, k: int)
    requires 0 <= k <= |names| && TagFiles(names[..k], read).Err?
    ensures TagFiles(names, read) == TagFiles(names[..k], read)
    decreases |names| - k
  {
    if k < |names| {
      assert names[..k + 1][..k] == names[..k];
      TagFilesErrorStays(names, read, k + 1);
    } else {
      assert names[..k] == names;
    }
  }

  /** The loading loop over a sorted directory listing, with `read` standing
      for `pd.read_csv` of a file of that directory. */
  method LoadAndCombineData(names: seq<string>, read: string -> Option<Frame>) returns (r: Result<Frame, LoadError>)
    ensures r == Combine(TagFiles(names, read))
  {
    var allData: seq<Frame> := [];
    var k := 0;
    while k < |names|
      invariant 0 <= k <= |names|
      invariant TagFiles(names[..k], read) == Ok(allData)
    {
      var file := names[k];
      assert names[..k + 1][..k] == names[..k] && names[..k + 1][k] == file;
      if EndsWith(file, ".csv") {
        var df := read(file);
        if df.None? {
          TagFilesErrorStays(names, read, k + 1);
          return Err(ReadFailed(file));
        }
        var date := FileDate(file);
        if date.None? {
          TagFilesErrorStays(names, read, k + 1);
          return Err(BadFileDate(file));
        }
        var tagged := SetColumn(df.value, "Date", _ => When(date.value));
        allData := allData + [tagged];
      }
      k := k + 1;
    }
    assert names[..k] == names;
    if allData == [] {
      return Err(NothingToConcatenate);
    }
    r := Ok(ConcatAll(allData));
  }

  /** Names without the `.csv` suffix are skipped: loading a listing gives the
      same result as loading only its `.csv` names. */
  lemma {:induction false} LoadSkipsOtherFiles(names: seq<string>, read: string -> Option<Frame>)
    ensures TagFiles(names, read) == TagFiles(WithSuffix(names, ".csv"), read)
  {
    if names != [] {
      var init := names[..|names| - 1];
      var name := names[|names| - 1];
      LoadSkipsOtherFiles(init, read);
      var csv := WithSuffix(init, ".csv");
      assert TagFiles(names, read) == TagStep(TagFiles(csv, read), name, read);
      if EndsWith(name, ".csv") {
        var kept := csv + [name];
        assert WithSuffix(names, ".csv") == kept;
        assert kept[..|kept| - 1] == csv && kept[|kept| - 1] == name;
        assert TagFiles(kept, read) == TagStep(TagFiles(csv, read), name, read);
      } else {
        assert WithSuffix(names, ".csv") == csv;
      }
    }
  }

  /** Every kept file was read, and its table is tagged with the date its
      name parses to. */
  lemma {:induction false} TagFilesSpec(names: seq<string>, read: string -> Option<Frame>)
    requires TagFiles(names, read).Ok?
    ensures var fs := TagFiles(names, read).value;
            |fs| == |WithSuffix(names, ".csv")|
            && forall k :: 0 <= k < |fs| ==>
                 read(WithSuffix(names, ".csv")[k]).Some? && FileDate(WithSuffix(names, ".csv")[k]).Some?
                 && fs[k] == TagDate(read(WithSuffix(names, ".csv")[k]).value, FileDate(WithSuffix(names, ".csv")[k]).value)
  {
    if names != [] {
      var init := names[..|names| - 1];
      var name := names[|names| - 1];
      TagFilesSpec(init, read);
      var csv := WithSuffix(init, ".csv");
      var fs0 := TagFiles(init, read).value;
      if EndsWith(name, ".csv") {
        var kept := csv + [name];
        assert WithSuffix(names, ".csv") == kept;
        var fs := TagFiles(names, read).value;
        assert fs == fs0 + [TagDate(read(name).value, FileDate(name).value)];
        forall k | 0 <= k < |fs|
          ensures read(kept[k]).Some? && FileDate(kept[k]).Some? && fs[k] == TagDate(read(kept[k]).value, FileDate(kept[k]).value)
        {
          if k < |fs0| {
            assert fs[k] == fs0[k] && kept[k] == csv[k];
          }
        }
      } else {
        assert WithSuffix(names, ".csv") == csv;
      }
    }
  }

  /** The combined table is well formed and has as many rows as the kept
      files together. */
  lemma LoadedRows(names: seq<string>, read: string -> Option<Frame>)
    requires ReadsWellFormed(read)
    requires Combine(TagFiles(names, read)).Ok?
    ensures var f := Combine(TagFiles(names, read)).value;
            WellFormed(f) && |f.rows| == RowCount(TagFiles(names, read).value)
  {
    var fs := TagFiles(names, read).value;
    TagFilesSpec(names, read);
    assert AllWellFormed(fs);
    ConcatAllWellFormed(fs);
  }

  /** Row j of the k-th `.csv` file is row `RowCount(fs[..k]) + j` of the
      combined table: the file's row with Date set to the file's date, padded
      with Null to the combined columns. Every row of the combined table is
      such a row. */
  lemma LoadedRowAt(names: seq<string>, read: string -> Option<Frame>, k: int, j: int)
    requires Combine(TagFiles(names, read)).Ok?
    requires 0 <= k < |WithSuffix(names, ".csv")|
    requires read(WithSuffix(names, ".csv")[k]).Some? && 0 <= j < |read(WithSuffix(names, ".csv")[k]).value.rows|
    ensures var fs := TagFiles(names, read).value;
            var f := Combine(TagFiles(names, read)).value;
            var n := WithSuffix(names, ".csv")[k];
            k < |fs| && RowCount(fs[..k]) + j < |f.rows|
            && FileDate(n).Some?
            && f.rows[RowCount(fs[..k]) + j] == Pad(read(n).value.rows[j]["Date" := When(FileDate(n).value)], f.columns)
            && f.rows[RowCount(fs[..k]) + j]["Date"] == When(FileDate(n).value)
  {
    var fs := TagFiles(names, read).value;
    var n := WithSuffix(names, ".csv")[k];
    TagFilesSpec(names, read);
    var src := read(n).value;
    assert fs[k].rows[j] == src.rows[j]["Date" := When(FileDate(n).value)];
    ConcatRowAt(fs, AllColumns(fs), k, j);
  }

  /** Every row of the combined table carries the date of one of the kept
      files. */
  lemma LoadedDates(names: seq<string>, read: string -> Option<Frame>)
    requires Combine(TagFiles(names, read)).Ok?
    ensures var f := Combine(TagFiles(names, read)).value;
            forall i :: 0 <= i < |f.rows| ==>
              exists n :: n in WithSuffix(names, ".csv") && FileDate(n).Some? && "Date" in f.rows[i] && f.rows[i]["Date"] == When(FileDate(n).value)
  {
    var fs := TagFiles(names, read).value;
    var csv := WithSuffix(names, ".csv");
    TagFilesSpec(names, read);
    var vals := seq(|fs|, k requires 0 <= k < |fs| => When(FileDate(csv[k]).value));
    forall k, j | 0 <= k < |fs| && 0 <= j < |fs[k].rows|
      ensures "Date" in fs[k].rows[j] && fs[k].rows[j]["Date"] == vals[k]
    {
      var src := read(csv[k]).value;
      assert fs[k].rows[j] == src.rows[j]["Date" := When(FileDate(csv[k]).value)];
    }
    ColumnValues(fs, "Date", vals, AllColumns(fs));
    var f := ConcatAll(fs);
    assert f.rows == AllRows(fs, AllColumns(fs));
    forall i | 0 <= i < |f.rows|
      ensures exists n :: n in csv && FileDate(n).Some? && "Date" in f.rows[i] && f.rows[i]["Date"] == When(FileDate(n).value)
    {
      var k :| 0 <= k < |vals| && f.rows[i]["Date"] == vals[k];
      assert csv[k] in csv;
    }
  }

  /** Loading fails exactly when some `.csv` file cannot be read, some `.csv`
      name is not a date, or there is no `.csv` name at all. */
  lemma {:induction false} LoadFails(names: seq<string>, read: string -> Option<Frame>)
    ensures Combine(TagFiles(names, read)).Err? <==>
              (exists n :: n in WithSuffix(names, ".csv") && (read(n).None? || FileDate(n).None?))
              || WithSuffix(names, ".csv") == []
  {
    TagFilesFails(names, read);
    if TagFiles(names, read).Ok? {
      TagFilesSpec(names, read);
    }
  }

  lemma {:induction false} TagFilesFails(names: seq<string>, read: string -> Option<Frame>)
    ensures TagFiles(names, read).Err? <==>
              exists n :: n in WithSuffix(names, ".csv") && (read(n).None? || FileDate(n).None?)
  {
    if names != [] {
      var init := names[..|names| - 1];
      TagFilesFails(init, read);
      var csv := WithSuffix(init, ".csv");
      var name := names[|names| - 1];
      if EndsWith(name, ".csv") {
        assert WithSuffix(names, ".csv") == csv + [name];
        if read(name).None? || FileDate(name).None? {
          assert name in WithSuffix(names, ".csv");
        }
      }
    }
  }

  // ---------------------------------------------------------------------------
  // clean_data: renaming

  const ColumnMapping: map<string, string> := map[
    "Country_Region" := "Country",
    "Province_State" := "Province",
    "Lat" := "Latitude",
    "Long_" := "Longitude",
    "Last_Update" := "LastUpdate"
  ]

  function Renamed(col: string): string {
    if col in ColumnMapping then ColumnMapping[col] else col
  }

  /** The mapping key whose target is `col`, if there is one. */
  function SourceOf(col: string): Option<string> {
    if col == "Country" then Some("Country_Region")
    else if col == "Province" then Some("Province_State")
    else if col == "Latitude" then Some("Lat")
    else if col == "Longitude" then Some("Long_")
    else if col == "LastUpdate" then Some("Last_Update")
    else None
  }

  lemma SourceOfInvertsMapping(k: string, col: string)
    ensures k in ColumnMapping && ColumnMapping[k] == col <==> SourceOf(col) == Some(k)
    ensures col !in ColumnMapping || SourceOf(col).None?
  {
  }

  function RenamedColumns(cols: set<string>): set<string> {
    set k | k in cols :: Renamed(k)
  }

  /** `df.rename(columns={k: v for k, v in column_mapping.items() if k in df.columns})`
      on one row. When a target col is already present as well, the renamed
      column's value is kept. */
  function RenameRow(row: Row): Row {
    map col | col in RenamedColumns(row.Keys) ::
      if SourceOf(col).Some? && SourceOf(col).value in row then row[SourceOf(col).value]
      else Get(row, col)
  }

  function RenameFrame(f: Frame): (r: Frame)
    ensures r.columns == RenamedColumns(f.columns) && |r.rows| == |f.rows|
    ensures forall i :: 0 <= i < |f.rows| ==> r.rows[i] == RenameRow(f.rows[i])
  {
    Frame(RenamedColumns(f.columns), seq(|f.rows|, i requires 0 <= i < |f.rows| => RenameRow(f.rows[i])))
  }

  /** Renaming moves each present mapping key's value to its target, drops
      the key, and leaves every other column and value as it was. */
  lemma RenameRowSpec(row: Row)
    ensures forall k :: k in row && k in ColumnMapping ==>
              k !in RenameRow(row) && ColumnMapping[k] in RenameRow(row) && RenameRow(row)[ColumnMapping[k]] == row[k]
    ensures forall k :: k in row && k !in ColumnMapping && (SourceOf(k).None? || SourceOf(k).value !in row) ==>
              k in RenameRow(row) && RenameRow(row)[k] == row[k]
    ensures forall col :: col in RenameRow(row) ==> exists k :: k in row && Renamed(k) == col
  {
    forall k | k in row && k in ColumnMapping
      ensures k !in RenameRow(row) && ColumnMapping[k] in RenameRow(row) && RenameRow(row)[ColumnMapping[k]] == row[k]
    {
      SourceOfInvertsMapping(k, ColumnMapping[k]);
      assert Renamed(k) in RenamedColumns(row.Keys);
    }
    forall k | k in row && k !in ColumnMapping && (SourceOf(k).None? || SourceOf(k).value !in row)
      ensures k in RenameRow(row) && RenameRow(row)[k] == row[k]
    {
      assert Renamed(k) == k;
    }
  }

  /** A row without any mapping key is left as it is. */
  lemma RenameNothing(row: Row)
    requires forall k :: k in row ==> k !in ColumnMapping
    ensures RenameRow(row) == row
  {
    assert RenamedColumns(row.Keys) == row.Keys by {
      forall k | k in row ensures Renamed(k) == k {}
    }
    forall col | col in row ensures RenameRow(row)[col] == row[col] {
      if SourceOf(col).Some? {
        assert SourceOf(col).value in ColumnMapping;
      }
    }
  }

  // ---------------------------------------------------------------------------
  // clean_data: essential columns and numeric coercion

  /** `essential_columns`, in the order the back-filling loop visits them. */
  const Essential: seq<string> := ["Country", "Date", "Confirmed", "Deaths", "Recovered", "Active"]

  /** `numeric_columns`, in the order the coercion loop visits them. */
  const Numeric: seq<string> := ["Confirmed", "Deaths", "Recovered", "Active"]

  const EssentialSet: set<string> := {"Country", "Date", "Confirmed", "Deaths", "Recovered", "Active"}
  const NumericSet: set<string> := {"Confirmed", "Deaths", "Recovered", "Active"}

  /** The column labels clean_data names are distinct, and none of them is a
      key of the rename mapping. */
  lemma LabelsDistinct()
    ensures "Confirmed" != "Country" && "Confirmed" != "Active" && "Confirmed" != "Date" && "Confirmed" != "Deaths" && "Confirmed" != "Recovered"
    ensures "Deaths" != "Country" && "Deaths" != "Active" && "Deaths" != "Date" && "Deaths" != "Recovered"
    ensures "Recovered" != "Country" && "Recovered" != "Active" && "Recovered" != "Date"
    ensures "Active" != "Country" && "Active" != "Date" && "Country" != "Date"
    ensures forall c :: c in EssentialSet ==> c !in ColumnMapping
  {
  }

  lemma ColumnListsAsSets()
    ensures forall c :: c in Essential <==> c in EssentialSet
    ensures forall c :: c in Numeric <==> c in NumericSet
  {
  }

  /** `0 if col not in ['Country', 'Date'] else None`. */
  function DefaultFor(col: string): Cell {
    if col == "Country" || col == "Date" then Null else Int(0)
  }

  /** Every numeric column is back-filled with 0. */
  lemma NumericDefaults()
    ensures forall c :: c in NumericSet ==> c in EssentialSet && DefaultFor(c) == Int(0)
  {
  }

  // ---------------------------------------------------------------------------
  // clean_data: country names and Active

  const CountryAliases: map<string, string> := map[
    "Mainland China" := "China",
    "US" := "United States",
    "Korea, South" := "South Korea",
    "Korea, North" := "North Korea",
    "Taiwan*" := "Taiwan"
  ]

  /** `Series.replace(aliases)`: a whole value equal to an alias is rewritten. */
  function AliasCell(c: Cell): Cell {
    if c.Text? && c.s in CountryAliases then Text(CountryAliases[c.s]) else c
  }

  /** Exactly five names are rewritten, every other value is left alone, and
      rewriting twice is rewriting once because no target is itself an alias. */
  lemma AliasSpec(c: Cell)
    ensures |CountryAliases| == 5
    ensures AliasCell(c) != c <==> c.Text? && c.s in CountryAliases
    ensures AliasCell(AliasCell(c)) == AliasCell(c)
  {
    assert CountryAliases.Keys == {"Mainland China", "US", "Korea, South", "Korea, North", "Taiwan*"};
    assert forall k :: k in CountryAliases ==> CountryAliases[k] !in CountryAliases;
  }

  function Count(row: Row, col: string): int {
    ToNumber(Get(row, col))
  }

  /** `clip(Confirmed - Deaths - Recovered, lower=0)`. */
  function ActiveOf(row: Row): int {
    var a := Count(row, "Confirmed") - Count(row, "Deaths") - Count(row, "Recovered");
    if a < 0 then 0 else a
  }

  // ---------------------------------------------------------------------------
  // clean_data, row by row

  /** The last two assignments: Country is canonicalised, then Active
      recomputed. */
  function FinishRow(row: Row): Row {
    var r := row["Country" := AliasCell(Get(row, "Country"))];
    r["Active" := Int(ActiveOf(r))]
  }

  /** Back-filling and coercion of the essential columns, all at once. */
  function Prepare(r0: Row): Row {
    map c | c in r0.Keys + EssentialSet ::
      if c in NumericSet then Int(ToNumber(Get(r0, c)))
      else if c in r0 then r0[c]
      else DefaultFor(c)
  }

  lemma LoopsPrepareAt(r0: Row, c: string)
    requires c in Coerce(Fill(r0, Essential, DefaultFor), Numeric)
    ensures c in Prepare(r0) && Coerce(Fill(r0, Essential, DefaultFor), Numeric)[c] == Prepare(r0)[c]
  {
    ColumnListsAsSets();
    var f := Fill(r0, Essential, DefaultFor);
    var r2 := Coerce(f, Numeric);
    assert c in f;
    assert c in r0.Keys + EssentialSet;
    if c in NumericSet {
      NumericDefaults();
      assert c in EssentialSet;
      assert r2[c] == Int(ToNumber(f[c]));
      assert f[c] == (if c in r0 then r0[c] else Int(0));
      assert ToNumber(f[c]) == ToNumber(Get(r0, c));
      assert Prepare(r0)[c] == Int(ToNumber(Get(r0, c)));
    } else {
      assert r2[c] == f[c];
      assert f[c] == (if c in r0 then r0[c] else DefaultFor(c));
      assert Prepare(r0)[c] == (if c in r0 then r0[c] else DefaultFor(c));
    }
  }

  /** The two loops of clean_data compute `Prepare`. */
  lemma LoopsPrepare(r0: Row)
    ensures Coerce(Fill(r0, Essential, DefaultFor), Numeric) == Prepare(r0)
  {
    var r2 := Coerce(Fill(r0, Essential, DefaultFor), Numeric);
    var p := Prepare(r0);
    assert r2.Keys == p.Keys by { ColumnListsAsSets(); }
    forall c | c in r2 ensures r2[c] == p[c] {
      LoopsPrepareAt(r0, c);
    }
  }

  /** What `clean_data` does to a row once its columns are renamed. */
  function CleanRenamed(r0: Row): Row {
    FinishRow(Prepare(r0))
  }

  /** What `clean_data` does to one row. */
  function CleanRow(row: Row): Row {
    CleanRenamed(RenameRow(row))
  }

  /** `clean_data`: each loop over a column list is a loop here, each
      column-wide assignment a `SetColumn`. */
  method CleanData(df: Frame) returns (r: Frame)
    requires WellFormed(df)
    ensures WellFormed(r) && |r.rows| == |df.rows|
    ensures forall c :: c in r.columns <==> c in RenamedColumns(df.columns) || c in EssentialSet
    ensures forall i :: 0 <= i < |df.rows| ==> r.rows[i] == CleanRow(df.rows[i])
  {
    var f := RenameFrame(df);
    assert WellFormed(f) by {
      forall i | 0 <= i < |f.rows| ensures f.rows[i].Keys == f.columns {
        assert RenameRow(df.rows[i]).Keys == RenamedColumns(df.rows[i].Keys);
      }
    }
    ghost var renamed := f;
    f := FillColumns(f, Essential, DefaultFor);
    f := CoerceColumns(f, Numeric);
    ColumnListsAsSets();
    f := SetColumn(f, "Country", row => AliasCell(Get(row, "Country")));
    f := SetColumn(f, "Active", row => Int(ActiveOf(row)));
    r := f;
    forall i | 0 <= i < |df.rows| ensures r.rows[i] == CleanRow(df.rows[i]) {
      LoopsPrepare(renamed.rows[i]);
    }
  }

  // ---------------------------------------------------------------------------
  // What clean_data promises about each row.

  /** On a row whose columns are already renamed, cleaning adds exactly the
      essential columns ... */
  lemma CleanedKeys(r0: Row)
    ensures forall c :: c in CleanRenamed(r0) <==> c in r0 || c in EssentialSet
  {
  }

  /** ... leaves every other column untouched ... */
  lemma CleanedOthers(r0: Row)
    ensures forall c :: c in r0 && c !in EssentialSet ==> c in CleanRenamed(r0) && CleanRenamed(r0)[c] == r0[c]
  {
  }

  /** ... canonicalises Country ... */
  lemma CleanedCountry(r0: Row)
    ensures "Country" in CleanRenamed(r0) && CleanRenamed(r0)["Country"] == AliasCell(Get(r0, "Country"))
  {
    LabelsDistinct();
  }

  /** ... keeps Date, Null when it was missing ... */
  lemma CleanedDate(r0: Row)
    ensures "Date" in CleanRenamed(r0) && CleanRenamed(r0)["Date"] == Get(r0, "Date")
  {
    LabelsDistinct();
  }

  /** ... stores in each count the integer its value coerces to, 0 when it
      was missing ... */
  lemma CleanedCount(r0: Row, c: string)
    requires c == "Confirmed" || c == "Deaths" || c == "Recovered"
    ensures c in CleanRenamed(r0) && CleanRenamed(r0)[c] == Int(ToNumber(Get(r0, c)))
  {
    LabelsDistinct();
  }

  /** ... and recomputes Active from those counts. */
  lemma CleanedActive(r0: Row)
    ensures "Active" in CleanRenamed(r0) && CleanRenamed(r0)["Active"] == Int(ActiveOf(r0))
  {
    LabelsDistinct();
    CleanedCount(r0, "Confirmed");
    CleanedCount(r0, "Deaths");
    CleanedCount(r0, "Recovered");
  }

  /** The cleaned row has the renamed columns plus the essential ones; a count
      column holds the integer its renamed value coerces to, so a missing or
      unparseable value becomes 0; Active is overwritten with
      `max(Confirmed - Deaths - Recovered, 0)` of those counts, which is never
      negative and never below the difference; Country is canonicalised, Date
      kept, and every other column keeps its renamed value. */
  lemma CleanRowSpec(row: Row)
    ensures forall c :: c in CleanRow(row) <==> c in RenameRow(row) || c in EssentialSet
    ensures forall c :: c == "Confirmed" || c == "Deaths" || c == "Recovered" ==>
              c in CleanRow(row) && CleanRow(row)[c] == Int(ToNumber(Get(RenameRow(row), c)))
    ensures "Active" in CleanRow(row) && CleanRow(row)["Active"] == Int(ActiveOf(RenameRow(row)))
    ensures CleanRow(row)["Active"].i >= 0
    ensures CleanRow(row)["Active"].i >= Count(CleanRow(row), "Confirmed") - Count(CleanRow(row), "Deaths") - Count(CleanRow(row), "Recovered")
    ensures "Country" in CleanRow(row) && CleanRow(row)["Country"] == AliasCell(Get(RenameRow(row), "Country"))
    ensures "Date" in CleanRow(row) && CleanRow(row)["Date"] == Get(RenameRow(row), "Date")
    ensures forall c :: c in RenameRow(row) && c !in EssentialSet ==> c in CleanRow(row) && CleanRow(row)[c] == RenameRow(row)[c]
  {
    var r0 := RenameRow(row);
    CleanedKeys(r0);
    CleanedOthers(r0);
    CleanedCountry(r0);
    CleanedDate(r0);
    forall c | c == "Confirmed" || c == "Deaths" || c == "Recovered"
      ensures c in CleanRow(row) && CleanRow(row)[c] == Int(ToNumber(Get(r0, c)))
    {
      CleanedCount(r0, c);
    }
    CleanedActive(r0);
  }

  /** No column produced by the renaming is a key of the rename mapping. */
  lemma RenamedNoSource(row: Row)
    ensures forall k :: k in RenameRow(row) ==> k !in ColumnMapping
  {
    forall k | k in RenameRow(row) ensures k !in ColumnMapping {
      var src :| src in row && Renamed(src) == k;
    }
  }

  /** No column of a cleaned row is a key of the rename mapping. */
  lemma CleanRowRenamed(row: Row)
    ensures forall k :: k in CleanRow(row) ==> k !in ColumnMapping
  {
    CleanedKeys(RenameRow(row));
    RenamedNoSource(row);
    LabelsDistinct();
  }

  /** Cleaning a cleaned row again leaves the value of each column alone. */
  lemma CleanAgainAt(r0: Row, k: string)
    requires k in CleanRenamed(r0)
    ensures k in CleanRenamed(CleanRenamed(r0)) && CleanRenamed(CleanRenamed(r0))[k] == CleanRenamed(r0)[k]
  {
    var c := CleanRenamed(r0);
    if k !in EssentialSet {
      CleanedOthers(c);
    } else if k == "Country" {
      CleanedCountry(c);
      CleanedCountry(r0);
      AliasSpec(Get(r0, "Country"));
    } else if k == "Date" {
      CleanedDate(c);
    } else if k == "Active" {
      CleanAgainActive(r0);
    } else {
      assert k == "Confirmed" || k == "Deaths" || k == "Recovered";
      CleanedCount(c, k);
      CleanedCount(r0, k);
    }
  }

  /** Active is recomputed from counts that cleaning again leaves alone. */
  lemma CleanAgainActive(r0: Row)
    ensures var c := CleanRenamed(r0);
            "Active" in CleanRenamed(c) && CleanRenamed(c)["Active"] == c["Active"]
  {
    var c := CleanRenamed(r0);
    CleanedActive(c);
    CleanedActive(r0);
    CleanedCount(r0, "Confirmed");
    CleanedCount(r0, "Deaths");
    CleanedCount(r0, "Recovered");
    assert ActiveOf(c) == ActiveOf(r0);
  }

  lemma CleanRenamedIdempotent(r0: Row)
    ensures CleanRenamed(CleanRenamed(r0)) == CleanRenamed(r0)
  {
    var c := CleanRenamed(r0);
    CleanedKeys(r0);
    CleanedKeys(c);
    forall k | k in c ensures k in CleanRenamed(c) && CleanRenamed(c)[k] == c[k] {
      CleanAgainAt(r0, k);
    }
  }

  /** Cleaning a cleaned row changes nothing. */
  lemma CleanIdempotent(row: Row)
    ensures CleanRow(CleanRow(row)) == CleanRow(row)
  {
    CleanRowRenamed(row);
    RenameNothing(CleanRow(row));
    CleanRenamedIdempotent(RenameRow(row));
  }
}
