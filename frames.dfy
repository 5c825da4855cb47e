/** Tables as pandas holds them in this pipeline: a set of column labels and a
    sequence of rows, each row a map from label to cell. */
module Frames {
  import opened Wrappers
  import opened Dates

  /** A value in a table: missing (NaN/None), an integer, text, or a timestamp. */
  datatype Cell = Null | Int(i: int) | Text(s: string) | When(d: Date)

  type Row = map<string, Cell>

  datatype Frame = Frame(columns: set<string>, rows: seq<Row>)

  /** Every row has exactly the frame's columns (a DataFrame is rectangular). */
  predicate WellFormed(f: Frame) {
    forall i :: 0 <= i < |f.rows| ==> f.rows[i].Keys == f.columns
  }

  /** `pd.DataFrame()`. */
  const Empty: Frame := Frame({}, [])

  // ---------------------------------------------------------------------------
  // Numeric coercion: `pd.to_numeric(col, errors='coerce').fillna(0)`.

  /** The value of a non-empty run of decimal digits. */
  function ParseDigits(s: string): Option<nat>
  {
    if s == [] || !IsDigit(s[|s| - 1]) then None
    else if |s| == 1 then Some(DigitValue(s[0]))
    else match ParseDigits(s[..|s| - 1])
      case None => None
      case Some(v) => Some(10 * v + DigitValue(s[|s| - 1]))
  }

  /** An optionally signed run of decimal digits. */
  function ParseInteger(s: string): Option<int>
  {
    if s != [] && (s[0] == '-' || s[0] == '+') then
      match ParseDigits(s[1..])
      case None => None
      case Some(v) => Some(if s[0] == '-' then -(v as int) else v as int)
    else match ParseDigits(s)
      case None => None
      case Some(v) => Some(v)
  }

  /** The number a cell coerces to; a value that is missing or does not parse
      becomes 0. */
  function ToNumber(c: Cell): int {
    match c
    case Int(i) => i
    case Text(s) => if ParseInteger(s).Some? then ParseInteger(s).value else 0
    case _ => 0
  }

  lemma ToNumberCases(c: Cell)
    ensures c.Int? ==> ToNumber(c) == c.i
    ensures c.Null? || c.When? ==> ToNumber(c) == 0
    ensures c.Text? && ParseInteger(c.s).None? ==> ToNumber(c) == 0
    ensures c.Text? && ParseInteger(c.s).Some? ==> ToNumber(c) == ParseInteger(c.s).value
  {
  }

  // ---------------------------------------------------------------------------
  // Column operations.

  /** `df[col] = v(row)` for every row; the column is added when it is new. */
  function SetColumn(f: Frame, col: string, v: Row -> Cell): (r: Frame)
    ensures r.columns == f.columns + {col} && |r.rows| == |f.rows|
    ensures forall i :: 0 <= i < |f.rows| ==> r.rows[i] == f.rows[i][col := v(f.rows[i])]
    ensures WellFormed(f) ==> WellFormed(r)
  {
    Frame(f.columns + {col}, seq(|f.rows|, i requires 0 <= i < |f.rows| => f.rows[i][col := v(f.rows[i])]))
  }

  /** The value of `col` in `row`, or Null when the row has no such column. */
  function Get(row: Row, col: string): Cell {
    if col in row then row[col] else Null
  }

  // ---------------------------------------------------------------------------
  // Back-filling and coercing a list of columns, one row at a time.

  /** The row after a loop `if col not in df.columns: df[col] = default(col)`
      has run over `cols`: each missing column is added with its default, and
      nothing present is overwritten. */
  function Fill(row: Row, cols: seq<string>, default: string -> Cell): (r: Row)
    ensures forall c :: c in r <==> c in row || c in cols
  {
    map c | c in row.Keys + (set x | x in cols) :: if c in row then row[c] else default(c)
  }

  /** Back-filling one more column is one more step of the loop. */
  lemma FillStep(row: Row, cols: seq<string>, col: string, default: string -> Cell)
    ensures Fill(row, cols + [col], default) == (var r := Fill(row, cols, default); if col in r then r else r[col := default(col)])
  {
  }

  /** The row after a loop `df[col] = pd.to_numeric(df[col], errors='coerce').fillna(0)`
      has run over `cols`: each column of `cols` holds the number its value
      coerces to (0 for a missing or unparseable value), the rest are left
      alone. */
  function Coerce(row: Row, cols: seq<string>): (r: Row)
    ensures forall c :: c in r <==> c in row || c in cols
  {
    map c | c in row.Keys + (set x | x in cols) :: if c in cols then Int(ToNumber(Get(row, c))) else row[c]
  }

  /** Coercing one more column is one more step of the loop. */
  lemma CoerceStep(row: Row, cols: seq<string>, col: string)
    ensures Coerce(row, cols + [col]) == (var r := Coerce(row, cols); r[col := Int(ToNumber(Get(r, col)))])
  {
  }

  /** `for col in cols: if col not in df.columns: df[col] = default(col)`. */
  method FillColumns(df: Frame, cols: seq<string>, default: string -> Cell) returns (f: Frame)
    requires WellFormed(df)
    ensures WellFormed(f) && |f.rows| == |df.rows|
    ensures forall c :: c in f.columns <==> c in df.columns || c in cols
    ensures forall i :: 0 <= i < |f.rows| ==> f.rows[i] == Fill(df.rows[i], cols, default)
  {
    f := df;
    var k := 0;
    while k < |cols|
      invariant 0 <= k <= |cols|
      invariant WellFormed(f) && |f.rows| == |df.rows|
      invariant forall c :: c in f.columns <==> c in df.columns || c in cols[..k]
      invariant forall i :: 0 <= i < |f.rows| ==> f.rows[i] == Fill(df.rows[i], cols[..k], default)
    {
      var col := cols[k];
      ghost var before := f;
      if col !in f.columns {
        f := SetColumn(f, col, _ => default(col));
      }
      assert cols[..k + 1] == cols[..k] + [col];
      forall i | 0 <= i < |f.rows|
        ensures f.rows[i] == Fill(df.rows[i], cols[..k + 1], default)
      {
        assert before.rows[i].Keys == before.columns;
        FillStep(df.rows[i], cols[..k], col, default);
      }
      k := k + 1;
    }
    assert cols[..k] == cols;
  }

  /** `for col in cols: df[col] = pd.to_numeric(df[col], errors='coerce').fillna(0)`. */
  method CoerceColumns(df: Frame, cols: seq<string>) returns (f: Frame)
    requires WellFormed(df)
    ensures WellFormed(f) && |f.rows| == |df.rows|
    ensures forall c :: c in f.columns <==> c in df.columns || c in cols
    ensures forall i :: 0 <= i < |f.rows| ==> f.rows[i] == Coerce(df.rows[i], cols)
  {
    f := df;
    var k := 0;
    while k < |cols|
      invariant 0 <= k <= |cols|
      invariant WellFormed(f) && |f.rows| == |df.rows|
      invariant forall c :: c in f.columns <==> c in df.columns || c in cols[..k]
      invariant forall i :: 0 <= i < |f.rows| ==> f.rows[i] == Coerce(df.rows[i], cols[..k])
    {
      var col := cols[k];
      f := SetColumn(f, col, row => Int(ToNumber(Get(row, col))));
      assert cols[..k + 1] == cols[..k] + [col];
      forall i | 0 <= i < |f.rows|
        ensures f.rows[i] == Coerce(df.rows[i], cols[..k + 1])
      {
        CoerceStep(df.rows[i], cols[..k], col);
      }
      k := k + 1;
    }
    assert cols[..k] == cols;
  }

  // ---------------------------------------------------------------------------
  // Concatenation: `pd.concat(frames, ignore_index=True)` aligns columns by label
  // and fills a column a frame lacks with NaN.

  /** A row as `concat` aligns it to the columns `cols`: it keeps every value
      it had and holds Null in each column it lacks. */
  function Pad(row: Row, cols: set<string>): (r: Row)
    ensures r.Keys == cols + row.Keys
    ensures forall c :: c in r ==> r[c] == if c in row then row[c] else Null
  {
    map k | k in cols + row.Keys :: Get(row, k)
  }

  function PadRows(rows: seq<Row>, cols: set<string>): (r: seq<Row>)
    ensures |r| == |rows|
  {
    seq(|rows|, i requires 0 <= i < |rows| => Pad(rows[i], cols))
  }

  function AllColumns(fs: seq<Frame>): set<string> {
    if fs == [] then {} else AllColumns(fs[..|fs| - 1]) + fs[|fs| - 1].columns
  }

  function AllRows(fs: seq<Frame>, cols: set<string>): seq<Row> {
    if fs == [] then [] else AllRows(fs[..|fs| - 1], cols) + PadRows(fs[|fs| - 1].rows, cols)
  }

  function ConcatAll(fs: seq<Frame>): Frame {
    Frame(AllColumns(fs), AllRows(fs, AllColumns(fs)))
  }

  /** Total number of rows of a list of frames. */
  function RowCount(fs: seq<Frame>): nat {
    if fs == [] then 0 else RowCount(fs[..|fs| - 1]) + |fs[|fs| - 1].rows|
  }

  predicate AllWellFormed(fs: seq<Frame>) {
    forall i :: 0 <= i < |fs| ==> WellFormed(fs[i])
  }

  lemma {:induction false} AllColumnsCover(fs: seq<Frame>, i: int)
    requires 0 <= i < |fs|
    ensures fs[i].columns <= AllColumns(fs)
  {
    if i < |fs| - 1 {
      AllColumnsCover(fs[..|fs| - 1], i);
    }
  }

  /** The concatenation is rectangular and has as many rows as its parts together;
      a row of a part keeps every value it had, and its other columns are Null. */
  lemma {:induction false} ConcatAllSpec(fs: seq<Frame>, cols: set<string>)
    requires AllWellFormed(fs)
    requires AllColumns(fs) <= cols
    ensures |AllRows(fs, cols)| == RowCount(fs)
    ensures forall i :: 0 <= i < |AllRows(fs, cols)| ==> AllRows(fs, cols)[i].Keys == cols
  {
    if fs != [] {
      var init := fs[..|fs| - 1];
      assert AllWellFormed(init);
      ConcatAllSpec(init, cols);
      var last := fs[|fs| - 1];
      AllColumnsCover(fs, |fs| - 1);
      var a: seq<Row> := AllRows(init, cols);
      var b: seq<Row> := PadRows(last.rows, cols);
      forall i | 0 <= i < |a + b| ensures (a + b)[i].Keys == cols {
        if i >= |a| {
          assert (a + b)[i] == Pad(last.rows[i - |a|], cols);
        }
      }
    }
  }

  lemma ConcatAllWellFormed(fs: seq<Frame>)
    requires AllWellFormed(fs)
    ensures WellFormed(ConcatAll(fs)) && |ConcatAll(fs).rows| == RowCount(fs)
  {
    ConcatAllSpec(fs, AllColumns(fs));
  }

  lemma {:induction false} AllRowsLength(fs: seq<Frame>, cols: set<string>)
    ensures |AllRows(fs, cols)| == RowCount(fs)
  {
    if fs != [] {
      AllRowsLength(fs[..|fs| - 1], cols);
    }
  }

  /** Row j of the k-th part is row `RowCount(fs[..k]) + j` of the
      concatenation, padded to the combined columns: the parts follow one
      another in order, each keeping the order of its rows. */
  lemma {:induction false} ConcatRowAt(fs: seq<Frame>, cols: set<string>, k: int, j: int)
    requires 0 <= k < |fs| && 0 <= j < |fs[k].rows|
    ensures RowCount(fs[..k]) + j < |AllRows(fs, cols)|
    ensures AllRows(fs, cols)[RowCount(fs[..k]) + j] == Pad(fs[k].rows[j], cols)
  {
    var n := |fs| - 1;
    var init := fs[..n];
    AllRowsLength(init, cols);
    var a := AllRows(init, cols);
    var b := PadRows(fs[n].rows, cols);
    assert AllRows(fs, cols) == a + b;
    if k == n {
      assert fs[..k] == init;
      assert (a + b)[|a| + j] == b[j];
    } else {
      ConcatRowAt(init, cols, k, j);
      assert init[..k] == fs[..k] && init[k] == fs[k];
      assert (a + b)[RowCount(fs[..k]) + j] == a[RowCount(fs[..k]) + j];
    }
  }

  /** Every row of the concatenation is a row of one of the parts. */
  lemma {:induction false} ConcatRowSource(fs: seq<Frame>, cols: set<string>, i: int)
    requires 0 <= i < |AllRows(fs, cols)|
    ensures exists k :: 0 <= k < |fs| && RowCount(fs[..k]) <= i < RowCount(fs[..k]) + |fs[k].rows|
  {
    var n := |fs| - 1;
    var init := fs[..n];
    AllRowsLength(init, cols);
    if i < |AllRows(init, cols)| {
      ConcatRowSource(init, cols, i);
      var k :| 0 <= k < |init| && RowCount(init[..k]) <= i < RowCount(init[..k]) + |init[k].rows|;
      assert init[..k] == fs[..k] && init[k] == fs[k];
    } else {
      assert fs[..n] == init;
      AllRowsLength(fs, cols);
    }
  }

  /** The concatenation of frames `fs + [f]` is the concatenation of `fs`
      followed by the rows of f, all padded to the combined columns. */
  lemma {:induction false} AllRowsRepad(fs: seq<Frame>, cols: set<string>, cols': set<string>)
    requires AllWellFormed(fs)
    requires AllColumns(fs) <= cols <= cols'
    ensures PadRows(AllRows(fs, cols), cols') == AllRows(fs, cols')
  {
    if fs != [] {
      var init := fs[..|fs| - 1];
      assert AllWellFormed(init);
      AllRowsRepad(init, cols, cols');
      var last := fs[|fs| - 1];
      var a: seq<Row> := AllRows(init, cols);
      var b: seq<Row> := PadRows(last.rows, cols);
      forall i | 0 <= i < |a + b| ensures Pad((a + b)[i], cols') == (PadRows(a, cols') + PadRows(last.rows, cols'))[i] {
        if i >= |a| {
          assert (a + b)[i] == Pad(last.rows[i - |a|], cols);
        }
      }
    }
  }

  /** When every row of the k-th frame holds `vals[k]` in column `c`, every row
      of the concatenation holds one of those values there. */
  lemma {:induction false} ColumnValues(fs: seq<Frame>, c: string, vals: seq<Cell>, cols: set<string>)
    requires |vals| == |fs|
    requires forall k, j :: 0 <= k < |fs| && 0 <= j < |fs[k].rows| ==>
               c in fs[k].rows[j] && fs[k].rows[j][c] == vals[k]
    ensures forall i :: 0 <= i < |AllRows(fs, cols)| ==>
              c in AllRows(fs, cols)[i] && exists k :: 0 <= k < |vals| && AllRows(fs, cols)[i][c] == vals[k]
  {
    if fs != [] {
      var n := |fs| - 1;
      assert forall k :: 0 <= k < n ==> fs[..n][k] == fs[k];
      ColumnValues(fs[..n], c, vals[..n], cols);
      var a: seq<Row> := AllRows(fs[..n], cols);
      var b: seq<Row> := PadRows(fs[n].rows, cols);
      assert AllRows(fs, cols) == a + b;
      forall i | 0 <= i < |a + b|
        ensures c in (a + b)[i] && exists k :: 0 <= k < |vals| && (a + b)[i][c] == vals[k]
      {
        if i < |a| {
          var k :| 0 <= k < n && a[i][c] == vals[..n][k];
          assert vals[k] == vals[..n][k];
        } else {
          var row := fs[n].rows[i - |a|];
          assert c in row && row[c] == vals[n];
          assert (a + b)[i] == Pad(row, cols);
        }
      }
    }
  }

  /** `pd.concat([combined, df])`. */
  function Concat(a: Frame, b: Frame): Frame {
    var cols := a.columns + b.columns;
    Frame(cols, PadRows(a.rows, cols) + PadRows(b.rows, cols))
  }

  /** Concatenating one frame at a time, starting from the empty frame, agrees
      with concatenating the whole list at once. */
  lemma ConcatStep(fs: seq<Frame>, f: Frame)
    requires AllWellFormed(fs) && WellFormed(f)
    ensures Concat(ConcatAll(fs), f) == ConcatAll(fs + [f])
  {
    var fs' := fs + [f];
    assert fs'[..|fs'| - 1] == fs;
    var cols := AllColumns(fs');
    AllRowsRepad(fs, AllColumns(fs), cols);
  }
}
