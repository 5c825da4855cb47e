/** `aggregate_by_country`: national totals per day and day-over-day increases. */
module Aggregation {
  import opened Wrappers
  import opened Dates
  import opened Strings
  import opened Frames
  import Etl

  // ---------------------------------------------------------------------------
  // The four aggregated counts.

  /** One of `agg_cols`. */
  datatype Metric = Confirmed | Deaths | Recovered | Active

  /** `agg_cols`, in the order the loop visits them. */
  const Metrics: seq<Metric> := [Confirmed, Deaths, Recovered, Active]

  function ColumnOf(m: Metric): string {
    match m
    case Confirmed => "Confirmed"
    case Deaths => "Deaths"
    case Recovered => "Recovered"
    case Active => "Active"
  }

  /** One value for each of `agg_cols`: the counts of a row or group, their
      increases, or their trailing means. */
  datatype PerMetric<T> = PerMetric(confirmed: T, deaths: T, recovered: T, active: T) {
    function Get(m: Metric): T {
      match m
      case Confirmed => confirmed
      case Deaths => deaths
      case Recovered => recovered
      case Active => active
    }

    function Set(m: Metric, v: T): (r: PerMetric<T>)
      ensures r.Get(m) == v && forall m' :: m' != m ==> r.Get(m') == Get(m')
    {
      match m
      case Confirmed => this.(confirmed := v)
      case Deaths => this.(deaths := v)
      case Recovered => this.(recovered := v)
      case Active => this.(active := v)
    }
  }

  type Counts = PerMetric<int>

  const Zero: Counts := PerMetric(0, 0, 0, 0)

  function Plus(a: Counts, b: Counts): Counts {
    PerMetric(a.confirmed + b.confirmed, a.deaths + b.deaths, a.recovered + b.recovered, a.active + b.active)
  }

  // ---------------------------------------------------------------------------
  // Group keys, in the order of `sort_values(['Country', 'Date'])`.

  datatype Key = Key(country: string, date: Date)

  predicate KeyLess(a: Key, b: Key) {
    Less(a.country, b.country) || (a.country == b.country && Lt(a.date, b.date))
  }

  lemma KeyLessOrder(a: Key, b: Key, c: Key)
    ensures !KeyLess(a, a)
    ensures KeyLess(a, b) && KeyLess(b, c) ==> KeyLess(a, c)
    ensures a == b || KeyLess(a, b) || KeyLess(b, a)
  {
    LessIrreflexive(a.country);
    LessTotal(a.country, b.country);
    if KeyLess(a, b) && KeyLess(b, c) {
      if Less(a.country, b.country) && Less(b.country, c.country) {
        LessTransitive(a.country, b.country, c.country);
      }
    }
  }

  // ---------------------------------------------------------------------------
  // Observations: the rows `groupby` keeps.

  /** One cleaned row's key and counts. */
  datatype Obs = Obs(key: Key, counts: Counts)

  /** `groupby` drops a row whose key holds a missing value: a row counts only
      when its Date is a timestamp and its Country a name. */
  function ObsOf(row: Row): Option<Obs> {
    var date := Get(row, "Date");
    var country := Get(row, "Country");
    if date.When? && country.Text? then
      Some(Obs(Key(country.s, date.d),
               PerMetric(Etl.Count(row, "Confirmed"), Etl.Count(row, "Deaths"), Etl.Count(row, "Recovered"), Etl.Count(row, "Active"))))
    else None
  }

  function Observations(rows: seq<Row>): (r: seq<Obs>)
    ensures |r| <= |rows|
    ensures forall o :: o in r ==> exists i :: 0 <= i < |rows| && ObsOf(rows[i]) == Some(o)
    ensures forall i :: 0 <= i < |rows| && ObsOf(rows[i]).Some? ==> ObsOf(rows[i]).value in r
  {
    if rows == [] then []
    else
      var init := rows[..|rows| - 1];
      var rest := Observations(init);
      assert forall i :: 0 <= i < |init| ==> init[i] == rows[i];
      match ObsOf(rows[|rows| - 1])
      case None => rest
      case Some(o) => rest + [o]
  }

  /** The positions of the rows `groupby` keeps, in increasing order. */
  function ObservedPositions(rows: seq<Row>): (p: seq<nat>)
    ensures forall t :: 0 <= t < |p| ==> p[t] < |rows| && ObsOf(rows[p[t]]).Some?
    ensures forall t, u :: 0 <= t < u < |p| ==> p[t] < p[u]
    ensures forall i :: 0 <= i < |rows| && ObsOf(rows[i]).Some? ==> i in p
  {
    if rows == [] then []
    else
      var rest := ObservedPositions(rows[..|rows| - 1]);
      assert forall t :: 0 <= t < |rest| ==> rows[..|rows| - 1][rest[t]] == rows[rest[t]];
      if ObsOf(rows[|rows| - 1]).Some? then rest + [|rows| - 1] else rest
  }

  /** Each kept row contributes exactly one observation, in row order: the
      t-th observation is that of the row at the t-th kept position. */
  lemma {:induction false} ObservationsInOrder(rows: seq<Row>)
    ensures |Observations(rows)| == |ObservedPositions(rows)|
    ensures forall t :: 0 <= t < |Observations(rows)| ==>
              ObsOf(rows[ObservedPositions(rows)[t]]) == Some(Observations(rows)[t])
  {
    if rows != [] {
      var init := rows[..|rows| - 1];
      ObservationsInOrder(init);
      var p0 := ObservedPositions(init);
      forall t | 0 <= t < |p0| ensures init[p0[t]] == rows[p0[t]] { }
    }
  }

  // ---------------------------------------------------------------------------
  // `groupby(['Date', 'Country'])[agg_cols].sum()`, in key order.

  datatype Group = Group(key: Key, totals: Counts)

  function Keys(gs: seq<Group>): set<Key> {
    if gs == [] then {} else {gs[0].key} + Keys(gs[1..])
  }

  /** Each group's key is below every key after it. */
  predicate Sorted(gs: seq<Group>) {
    gs == [] || ((forall k :: k in Keys(gs[1..]) ==> KeyLess(gs[0].key, k)) && Sorted(gs[1..]))
  }

  lemma {:induction false} KeysAt(gs: seq<Group>, k: Key)
    ensures k in Keys(gs) <==> exists i :: 0 <= i < |gs| && gs[i].key == k
  {
    if gs != [] {
      KeysAt(gs[1..], k);
      if exists i :: 0 <= i < |gs| && gs[i].key == k {
        var i :| 0 <= i < |gs| && gs[i].key == k;
        if i > 0 {
          assert gs[1..][i - 1].key == k;
        }
      }
      if exists i :: 0 <= i < |gs[1..]| && gs[1..][i].key == k {
        var i :| 0 <= i < |gs[1..]| && gs[1..][i].key == k;
        assert gs[i + 1].key == k;
      }
    }
  }

  /** In a sorted list every group is below every later group. */
  lemma {:induction false} SortedPairs(gs: seq<Group>, i: int, j: int)
    requires Sorted(gs) && 0 <= i < j < |gs|
    ensures KeyLess(gs[i].key, gs[j].key)
  {
    if i == 0 {
      KeysAt(gs[1..], gs[j].key);
      assert gs[1..][j - 1] == gs[j];
    } else {
      assert gs[1..][i - 1] == gs[i] && gs[1..][j - 1] == gs[j];
      SortedPairs(gs[1..], i - 1, j - 1);
    }
  }

  /** The totals of the group with key `k`, Zero when there is none. */
  function Lookup(gs: seq<Group>, k: Key): Counts {
    if gs == [] then Zero
    else if gs[0].key == k then gs[0].totals
    else Lookup(gs[1..], k)
  }

  /** The sum over all groups. */
  function Total(gs: seq<Group>): Counts {
    if gs == [] then Zero else Plus(gs[0].totals, Total(gs[1..]))
  }

  /** Adds one observation to its group, opening the group in key order when
      it is new. */
  function Insert(gs: seq<Group>, o: Obs): (r: seq<Group>)
    requires Sorted(gs)
    ensures Keys(r) == Keys(gs) + {o.key}
    ensures Sorted(r)
  {
    if gs == [] then
      assert [Group(o.key, o.counts)][1..] == [];
      [Group(o.key, o.counts)]
    else if gs[0].key == o.key then
      var r := [Group(o.key, Plus(gs[0].totals, o.counts))] + gs[1..];
      assert r[1..] == gs[1..];
      r
    else if KeyLess(o.key, gs[0].key) then
      var r := [Group(o.key, o.counts)] + gs;
      assert r[1..] == gs;
      forall k | k in Keys(gs) ensures KeyLess(o.key, k) {
        if k != gs[0].key {
          KeyLessOrder(o.key, gs[0].key, k);
        }
      }
      r
    else
      KeyLessOrder(o.key, gs[0].key, gs[0].key);
      var r := [gs[0]] + Insert(gs[1..], o);
      assert r[1..] == Insert(gs[1..], o);
      r
  }

  lemma {:induction false} LookupMissing(gs: seq<Group>, k: Key)
    requires k !in Keys(gs)
    ensures Lookup(gs, k) == Zero
  {
    if gs != [] {
      LookupMissing(gs[1..], k);
    }
  }

  /** Inserting adds the observation's counts to the overall total. */
  lemma {:induction false} InsertTotal(gs: seq<Group>, o: Obs)
    requires Sorted(gs)
    ensures Total(Insert(gs, o)) == Plus(Total(gs), o.counts)
  {
    var r := Insert(gs, o);
    if gs == [] {
    } else if gs[0].key == o.key {
      assert r[1..] == gs[1..];
    } else if KeyLess(o.key, gs[0].key) {
      assert r[1..] == gs;
    } else {
      InsertTotal(gs[1..], o);
      assert r[1..] == Insert(gs[1..], o);
    }
  }

  /** Inserting adds the observation's counts to its own group and to no
      other, and to the overall total. */
  lemma {:induction false} InsertTotals(gs: seq<Group>, o: Obs, k: Key)
    requires Sorted(gs)
    ensures Lookup(Insert(gs, o), k) == if k == o.key then Plus(Lookup(gs, k), o.counts) else Lookup(gs, k)
    ensures Total(Insert(gs, o)) == Plus(Total(gs), o.counts)
  {
    InsertTotal(gs, o);
    var r := Insert(gs, o);
    if gs == [] {
    } else if gs[0].key == o.key {
      assert r[1..] == gs[1..];
    } else if KeyLess(o.key, gs[0].key) {
      assert r[1..] == gs;
      assert o.key !in Keys(gs) by {
        KeyLessOrder(o.key, o.key, o.key);
        forall k' | k' in Keys(gs[1..]) ensures KeyLess(o.key, k') {
          KeyLessOrder(o.key, gs[0].key, k');
        }
      }
      LookupMissing(gs, o.key);
    } else {
      InsertTotals(gs[1..], o, k);
      assert r[1..] == Insert(gs[1..], o);
    }
  }

  /** The groups of a list of observations, built one observation at a time. */
  function GroupSum(obs: seq<Obs>): (r: seq<Group>)
    ensures Sorted(r)
  {
    if obs == [] then [] else Insert(GroupSum(obs[..|obs| - 1]), obs[|obs| - 1])
  }

  function ObsKeys(obs: seq<Obs>): set<Key> {
    if obs == [] then {} else ObsKeys(obs[..|obs| - 1]) + {obs[|obs| - 1].key}
  }

  lemma {:induction false} ObsKeysAt(obs: seq<Obs>, k: Key)
    ensures k in ObsKeys(obs) <==> exists j :: 0 <= j < |obs| && obs[j].key == k
  {
    if obs != [] {
      var init := obs[..|obs| - 1];
      ObsKeysAt(init, k);
      if exists j :: 0 <= j < |init| && init[j].key == k {
        var j :| 0 <= j < |init| && init[j].key == k;
        assert obs[j].key == k;
      }
      if exists j :: 0 <= j < |obs| && obs[j].key == k {
        var j :| 0 <= j < |obs| && obs[j].key == k;
        if j < |init| {
          assert init[j].key == k;
        }
      }
    }
  }

  /** The sum of the counts of the observations with key `k`. */
  function SumWhere(obs: seq<Obs>, k: Key): Counts {
    if obs == [] then Zero
    else
      var last := obs[|obs| - 1];
      var rest := SumWhere(obs[..|obs| - 1], k);
      if last.key == k then Plus(rest, last.counts) else rest
  }

  function SumAll(obs: seq<Obs>): Counts {
    if obs == [] then Zero else Plus(SumAll(obs[..|obs| - 1]), obs[|obs| - 1].counts)
  }

  /** A group exists exactly for each key some observation carries; the
      totals `Lookup` finds for a key are the sum over the observations with
      that key; and the total over all groups is the total over all
      observations. */
  lemma {:induction false} GroupSumSpec(obs: seq<Obs>, k: Key)
    ensures Keys(GroupSum(obs)) == ObsKeys(obs)
    ensures Lookup(GroupSum(obs), k) == SumWhere(obs, k)
    ensures Total(GroupSum(obs)) == SumAll(obs)
  {
    if obs != [] {
      var init := obs[..|obs| - 1];
      GroupSumSpec(init, k);
      InsertTotals(GroupSum(init), obs[|obs| - 1], k);
    }
  }

  /** In a sorted list, the group at index i is the one `Lookup` finds for its
      key. */
  lemma {:induction false} LookupAt(gs: seq<Group>, i: int)
    requires Sorted(gs) && 0 <= i < |gs|
    ensures Lookup(gs, gs[i].key) == gs[i].totals
  {
    if i > 0 {
      SortedPairs(gs, 0, i);
      KeyLessOrder(gs[0].key, gs[0].key, gs[0].key);
      assert gs[1..][i - 1] == gs[i];
      LookupAt(gs[1..], i - 1);
    }
  }

  /** The groups have pairwise distinct keys, one for each key among the
      observations, and each group's totals are the sum over the observations
      with its key. */
  lemma GroupSumGroups(obs: seq<Obs>, i: int, j: int)
    requires 0 <= i < |GroupSum(obs)| && 0 <= j < |GroupSum(obs)|
    ensures GroupSum(obs)[i].totals == SumWhere(obs, GroupSum(obs)[i].key)
    ensures i != j ==> GroupSum(obs)[i].key != GroupSum(obs)[j].key
    ensures exists n :: 0 <= n < |obs| && obs[n].key == GroupSum(obs)[i].key
  {
    var gs := GroupSum(obs);
    GroupSumSpec(obs, gs[i].key);
    LookupAt(gs, i);
    KeysAt(gs, gs[i].key);
    ObsKeysAt(obs, gs[i].key);
    KeyLessOrder(gs[i].key, gs[i].key, gs[i].key);
    if i < j {
      SortedPairs(gs, i, j);
    } else if j < i {
      SortedPairs(gs, j, i);
    }
  }

  /** Every observation's key has a group. */
  lemma GroupSumCovers(obs: seq<Obs>, n: int)
    requires 0 <= n < |obs|
    ensures exists i :: 0 <= i < |GroupSum(obs)| && GroupSum(obs)[i].key == obs[n].key
  {
    GroupSumSpec(obs, obs[n].key);
    ObsKeysAt(obs, obs[n].key);
    KeysAt(GroupSum(obs), obs[n].key);
  }

  // ---------------------------------------------------------------------------
  // `groupby('Country')[col].diff().fillna(0).clip(lower=0)`.

  function Clip(x: int): int {
    if x < 0 then 0 else x
  }

  /** The increase of metric `m` at row `i` over the previous row of the same
      country; 0 at a country's first row and where the count fell. */
  function NewValue(gs: seq<Group>, i: int, m: Metric): int
    requires 0 <= i < |gs|
  {
    if i == 0 || gs[i - 1].key.country != gs[i].key.country then 0
    else Clip(gs[i].totals.Get(m) - gs[i - 1].totals.Get(m))
  }

  /** The increases after the loop over `agg_cols` has handled its first `k`
      metrics; the others are still 0. */
  function NewSoFar(gs: seq<Group>, i: int, k: int): Counts
    requires 0 <= i < |gs| && 0 <= k <= |Metrics|
  {
    if k == 0 then Zero else NewSoFar(gs, i, k - 1).Set(Metrics[k - 1], NewValue(gs, i, Metrics[k - 1]))
  }

  /** Once the loop has handled all of `agg_cols`, every metric holds its increase. */
  lemma NewSoFarAll(gs: seq<Group>, i: int)
    requires 0 <= i < |gs|
    ensures forall m :: NewSoFar(gs, i, |Metrics|).Get(m) == NewValue(gs, i, m)
  {
    assert NewSoFar(gs, i, 0) == Zero;
    var c1 := NewSoFar(gs, i, 1);
    var c2 := NewSoFar(gs, i, 2);
    var c3 := NewSoFar(gs, i, 3);
    var c4 := NewSoFar(gs, i, 4);
    assert c1 == Zero.Set(Confirmed, NewValue(gs, i, Confirmed));
    assert c2 == c1.Set(Deaths, NewValue(gs, i, Deaths));
    assert c3 == c2.Set(Recovered, NewValue(gs, i, Recovered));
    assert c4 == c3.Set(Active, NewValue(gs, i, Active));
  }

  /** A row of the aggregated table: key, totals, and their increases. */
  datatype CountryDay = CountryDay(key: Key, totals: Counts, increase: Counts)

  /** The rows after the loop over `agg_cols` has handled its first k metrics. */
  ghost predicate IncreasesSoFar(gs: seq<Group>, out: seq<CountryDay>, k: int)
    requires 0 <= k <= |Metrics|
  {
    |out| == |gs| && forall i :: 0 <= i < |out| ==> out[i] == CountryDay(gs[i].key, gs[i].totals, NewSoFar(gs, i, k))
  }

  lemma IncreaseStep(gs: seq<Group>, out: seq<CountryDay>, k: int, out': seq<CountryDay>)
    requires 0 <= k < |Metrics| && IncreasesSoFar(gs, out, k)
    requires |out'| == |out|
    requires forall i :: 0 <= i < |out| ==>
               out'[i] == out[i].(increase := out[i].increase.Set(Metrics[k], NewValue(gs, i, Metrics[k])))
    ensures IncreasesSoFar(gs, out', k + 1)
  {
  }

  lemma AllMetricsDone(gs: seq<Group>, out: seq<CountryDay>)
    requires IncreasesSoFar(gs, out, |Metrics|)
    ensures |out| == |gs|
    ensures forall i :: 0 <= i < |out| ==>
              out[i].key == gs[i].key && out[i].totals == gs[i].totals
              && forall m :: out[i].increase.Get(m) == NewValue(gs, i, m)
  {
    forall i | 0 <= i < |out| ensures forall m :: out[i].increase.Get(m) == NewValue(gs, i, m) {
      NewSoFarAll(gs, i);
    }
  }

  /** `aggregate_by_country` on the rows of the cleaned table. */
  method AggregateByCountry(rows: seq<Row>) returns (out: seq<CountryDay>)
    ensures var gs := GroupSum(Observations(rows));
            |out| == |gs|
            && forall i :: 0 <= i < |out| ==>
                 out[i].key == gs[i].key && out[i].totals == gs[i].totals
                 && forall m :: out[i].increase.Get(m) == NewValue(gs, i, m)
  {
    var gs := GroupSum(Observations(rows));
    out := seq(|gs|, i requires 0 <= i < |gs| => CountryDay(gs[i].key, gs[i].totals, Zero));
    var k := 0;
    while k < |Metrics|
      invariant 0 <= k <= |Metrics|
      invariant IncreasesSoFar(gs, out, k)
    {
      var m := Metrics[k];
      ghost var before := out;
      out := seq(|out|, i requires 0 <= i < |out| => out[i].(increase := out[i].increase.Set(m, NewValue(gs, i, m))));
      IncreaseStep(gs, before, k, out);
      k := k + 1;
    }
    AllMetricsDone(gs, out);
  }

  // ---------------------------------------------------------------------------
  // What the increases mean.

  /** An increase is never negative, and it is 0 at a day with no earlier day
      of the same country. */
  lemma NewValueBounds(gs: seq<Group>, i: int, m: Metric)
    requires Sorted(gs) && 0 <= i < |gs|
    ensures NewValue(gs, i, m) >= 0
    ensures (forall j :: 0 <= j < |gs| && gs[j].key.country == gs[i].key.country ==> !Lt(gs[j].key.date, gs[i].key.date))
              ==> NewValue(gs, i, m) == 0
  {
    if i > 0 && gs[i - 1].key.country == gs[i].key.country {
      SortedPairs(gs, i - 1, i);
      LessIrreflexive(gs[i].key.country);
    }
  }

  /** When a country has an earlier day than row i, the previous row is that
      country's latest earlier day, and the increase is the clipped
      difference to it. */
  lemma NewValueIsDifference(gs: seq<Group>, i: int, m: Metric, j: int)
    requires Sorted(gs) && 0 <= i < |gs| && 0 <= j < |gs|
    requires gs[j].key.country == gs[i].key.country && Lt(gs[j].key.date, gs[i].key.date)
    ensures i > 0 && gs[i - 1].key.country == gs[i].key.country
    ensures Lt(gs[i - 1].key.date, gs[i].key.date) && Le(gs[j].key.date, gs[i - 1].key.date)
    ensures NewValue(gs, i, m) == Clip(gs[i].totals.Get(m) - gs[i - 1].totals.Get(m))
  {
    var c := gs[i].key.country;
    LessIrreflexive(c);
    assert j < i by {
      KeyLessOrder(gs[i].key, gs[j].key, gs[i].key);
      if i < j {
        SortedPairs(gs, i, j);
      }
    }
    var p := gs[i - 1].key.country;
    LessAsymmetric(c, p);
    SortedPairs(gs, i - 1, i);
    if j < i - 1 {
      SortedPairs(gs, j, i - 1);
    }
  }
}
