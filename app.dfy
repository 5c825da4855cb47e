/** The dashboard's number formatting and its week-over-week metric cards. */
module App {
  import opened Wrappers
  import opened Strings
  import opened Frames
  import opened DataLoading

  // ---------------------------------------------------------------------------
  // format_number

  /** The suffix tier `format_number` picks. */
  datatype Tier = Billions | Millions | Thousands | Units

  function TierOf(num: real): Tier {
    if num >= 1000000000.0 then Billions
    else if num >= 1000000.0 then Millions
    else if num >= 1000.0 then Thousands
    else Units
  }

  function Scale(t: Tier): real {
    match t
    case Billions => 1000000000.0
    case Millions => 1000000.0
    case Thousands => 1000.0
    case Units => 1.0
  }

  function Suffix(t: Tier): string {
    match t
    case Billions => "B"
    case Millions => "M"
    case Thousands => "K"
    case Units => ""
  }

  /** `.1f` for a suffixed value, `.0f` otherwise. */
  function Decimals(t: Tier): nat {
    if t == Units then 0 else 1
  }

  /** `format_number(num)`; `render(x, d)` is Python's `f"{x:.{d}f}"`. */
  function FormatNumber(num: real, render: (real, nat) -> string): string {
    var t := TierOf(num);
    render(num / Scale(t), Decimals(t)) + Suffix(t)
  }

  /** The tiers partition the number line at 1e3, 1e6 and 1e9. */
  lemma TierIntervals(num: real)
    ensures TierOf(num) == Billions <==> num >= 1000000000.0
    ensures TierOf(num) == Millions <==> 1000000.0 <= num < 1000000000.0
    ensures TierOf(num) == Thousands <==> 1000.0 <= num < 1000000.0
    ensures TierOf(num) == Units <==> num < 1000.0
  {
  }

  /** A K or M value is shown as a number in [1, 1000) before its suffix, a B
      value as a number of at least 1. */
  lemma ScaledRange(num: real)
    ensures TierOf(num) != Units ==> num / Scale(TierOf(num)) >= 1.0
    ensures TierOf(num) == Thousands || TierOf(num) == Millions ==> num / Scale(TierOf(num)) < 1000.0
  {
  }

  /** The text ends in the tier's suffix, and is the value rendered at its
      scale with one decimal when there is a suffix. */
  lemma FormatNumberSuffix(num: real, render: (real, nat) -> string)
    ensures var t := TierOf(num);
            EndsWith(FormatNumber(num, render), Suffix(t))
            && FormatNumber(num, render) == render(num / Scale(t), Decimals(t)) + Suffix(t)
            && (Suffix(t) == "" <==> num < 1000.0)
  {
    var t := TierOf(num);
    var s := FormatNumber(num, render);
    assert s[|s| - |Suffix(t)|..] == Suffix(t);
  }

  /** Every value below 1000, negative ones included, is rendered whole and
      without suffix: a weekly drop of 5000 shows as "-5000", not "-5.0K". */
  lemma SmallValuesPlain(num: real, render: (real, nat) -> string)
    requires num < 1000.0
    ensures FormatNumber(num, render) == render(num, 0)
  {
    assert render(num / 1.0, 0) + "" == render(num, 0);
  }

  lemma WeeklyDropPlain(render: (real, nat) -> string)
    ensures FormatNumber(-5000.0, render) == render(-5000.0, 0)
  {
    SmallValuesPlain(-5000.0, render);
  }

  // ---------------------------------------------------------------------------
  // create_metrics

  /** The values of one row of a state's data the cards read. */
  datatype Snapshot = Snapshot(confirmed: real, deaths: real, tests: real, hospitalization: real)

  datatype Card = Card(title: string, value: string, delta: string, inverse: bool)

  datatype MetricsError = TooFewRows

  /** `s.iloc[-1] - s.iloc[-8]`: the change over the last 7 rows; `iloc[-8]`
      fails on fewer than 8 rows. */
  function WeeklyChange(xs: seq<real>): Option<real> {
    if |xs| < 8 then None else Some(xs[|xs| - 1] - xs[|xs| - 8])
  }

  /** `f"{x:+.1f}"`: an explicit sign for a value that is not negative. */
  function Signed(x: real, render: (real, nat) -> string): string {
    (if x >= 0.0 then "+" else "") + render(x, 1)
  }

  function ConfirmedSeries(rows: seq<Snapshot>): seq<real> {
    seq(|rows|, i requires 0 <= i < |rows| => rows[i].confirmed)
  }

  function DeathsSeries(rows: seq<Snapshot>): seq<real> {
    seq(|rows|, i requires 0 <= i < |rows| => rows[i].deaths)
  }

  function TestsSeries(rows: seq<Snapshot>): seq<real> {
    seq(|rows|, i requires 0 <= i < |rows| => rows[i].tests)
  }

  function HospitalizationSeries(rows: seq<Snapshot>): seq<real> {
    seq(|rows|, i requires 0 <= i < |rows| => rows[i].hospitalization)
  }

  /** A count card: the total and its weekly change through `format_number`,
      the change marked " (7d)"; only Deaths colours a rise as bad. */
  function CountCard(title: string, total: real, change: real, render: (real, nat) -> string): Card {
    Card(title, FormatNumber(total, render), FormatNumber(change, render) + " (7d)", title == "Deaths")
  }

  /** The cards `create_metrics` shows for a state's rows, in the order of the
      `metrics` dict. */
  function CreateMetrics(rows: seq<Snapshot>, render: (real, nat) -> string): Result<seq<Card>, MetricsError> {
    if |rows| < 8 then Err(TooFewRows)
    else
      var latest := rows[|rows| - 1];
      var prev := rows[|rows| - 8];
      var rate := latest.hospitalization - prev.hospitalization;
      Ok([CountCard("Total Cases", latest.confirmed, latest.confirmed - prev.confirmed, render),
          CountCard("Deaths", latest.deaths, latest.deaths - prev.deaths, render),
          CountCard("Tests", latest.tests, latest.tests - prev.tests, render),
          Card("Hospitalization Rate", render(latest.hospitalization, 1) + "%", Signed(rate, render) + "%", false)])
  }

  /** The cards exist exactly when the state has at least 8 rows; they come
      in the order of the `metrics` dict, and only Deaths is inverse-coloured. */
  lemma CreateMetricsCards(rows: seq<Snapshot>, render: (real, nat) -> string)
    ensures CreateMetrics(rows, render).Ok? <==> |rows| >= 8
    ensures CreateMetrics(rows, render).Ok? ==>
              var cards := CreateMetrics(rows, render).value;
              |cards| == 4
              && cards[0].title == "Total Cases" && cards[1].title == "Deaths"
              && cards[2].title == "Tests" && cards[3].title == "Hospitalization Rate"
              && (forall k :: 0 <= k < 4 ==> (cards[k].inverse <==> k == 1))
  {
  }

  /** Each count card shows its column's latest value and its weekly change
      through `format_number`, the change marked " (7d)"; the rate card shows
      a percentage and a signed percentage change. */
  lemma CreateMetricsValues(rows: seq<Snapshot>, render: (real, nat) -> string)
    requires |rows| >= 8
    ensures var cards := CreateMetrics(rows, render).value;
            var n := |rows|;
            |cards| == 4
            && cards[0].value == FormatNumber(rows[n - 1].confirmed, render)
            && cards[0].delta == FormatNumber(WeeklyChange(ConfirmedSeries(rows)).value, render) + " (7d)"
            && cards[1].value == FormatNumber(rows[n - 1].deaths, render)
            && cards[1].delta == FormatNumber(WeeklyChange(DeathsSeries(rows)).value, render) + " (7d)"
            && cards[2].value == FormatNumber(rows[n - 1].tests, render)
            && cards[2].delta == FormatNumber(WeeklyChange(TestsSeries(rows)).value, render) + " (7d)"
            && cards[3].value == render(rows[n - 1].hospitalization, 1) + "%"
            && cards[3].delta == Signed(WeeklyChange(HospitalizationSeries(rows)).value, render) + "%"
  {
    var n := |rows|;
    var latest, prev := rows[n - 1], rows[n - 8];
    assert WeeklyChange(ConfirmedSeries(rows)).value == latest.confirmed - prev.confirmed;
    assert WeeklyChange(DeathsSeries(rows)).value == latest.deaths - prev.deaths;
    assert WeeklyChange(TestsSeries(rows)).value == latest.tests - prev.tests;
    assert WeeklyChange(HospitalizationSeries(rows)).value == latest.hospitalization - prev.hospitalization;
  }

  /** A non-negative rate change carries a "+", a negative one does not. */
  lemma SignedSpec(x: real, render: (real, nat) -> string)
    ensures x >= 0.0 ==> Signed(x, render) == "+" + render(x, 1)
    ensures x < 0.0 ==> Signed(x, render) == render(x, 1)
  {
  }

  // ---------------------------------------------------------------------------
  // The week-ago delta against the loader's trailing mean.

  /** For one state's rows, the window `rolling(n)` ends at row i is the n
      rows ending at i. */
  lemma {:induction false} WindowOfOneState(keys: seq<Cell>, key: Cell, i: int, n: nat)
    requires 0 <= i < |keys| && n <= i + 1
    requires forall q :: 0 <= q < |keys| ==> keys[q] == key
    ensures LastRows(keys, i, n) == seq(n, t requires 0 <= t < n => i - n + 1 + t)
    decreases n
  {
    if n > 0 {
      if i > 0 {
        assert Latest(keys, keys[i], i) == Some(i - 1);
        WindowOfOneState(keys, key, i - 1, n - 1);
      }
    }
  }

  /** The weekly change of a state's count is the sum of its last 7 daily
      changes, i.e. 7 times the latest 7-row mean of `_process_data`. */
  lemma WeeklyChangeIsSevenMeans(keys: seq<Cell>, vals: seq<int>, key: Cell)
    requires |vals| == |keys| >= 8 && !key.Null?
    requires forall q :: 0 <= q < |keys| ==> keys[q] == key
    ensures var n := |keys|;
            var news := Changes(keys, vals);
            MA7At(keys, news, n - 1).Some?
            && WeeklyChange(seq(n, i requires 0 <= i < n => vals[i] as real)).value
               == 7.0 * MA7At(keys, news, n - 1).value
  {
    var n := |keys|;
    var news := Changes(keys, vals);
    WindowOfOneState(keys, key, n - 1, 7);
    forall t | n - 7 <= t < n ensures news[t] == vals[t] - vals[t - 1] {
      NewAtPrevious(keys, vals, t, t - 1);
    }
    MA7Value(keys, news, n - 1);
  }
}
