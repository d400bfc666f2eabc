/**
 * get_cumulative_data_by_country: for every snapshot, in the order given,
 * the confirmed, death and recovered counts of the rows whose Country field
 * is exactly the requested name are added up, and the snapshot's point is
 * kept when its day offset lies within the optional bounds. get_title
 * builds the plot's title.
 */
module Aggregate {
  import opened Wrappers
  import opened SnapshotTime
  import opened Ingest
  import opened Sequences

  /** entry[Country] == country: the field holds exactly the name (a count never equals a name). */
  predicate IsCountry(country: string, entry: Row)
    requires |entry| > Country
  {
    entry[Country].Str? && entry[Country].text == country
  }

  /** A row the loop can read for this country: the Country field exists, and a matching row has its counts. */
  predicate EntryReadable(country: string, entry: Row) {
    |entry| > Country
    && (IsCountry(country, entry) ==>
          |entry| > Recovered && entry[Confirmed].Count? && entry[Deaths].Count? && entry[Recovered].Count?)
  }

  /** Every row of a run can be read for this country. */
  predicate RowsReadable(country: string, entries: seq<Row>) {
    forall k :: 0 <= k < |entries| ==> EntryReadable(country, entries[k])
  }

  predicate SnapshotReadable(country: string, datum: FileData) {
    RowsReadable(country, datum.data)
  }

  /** The data get_cumulative_data_by_country can run over without an IndexError or TypeError. */
  predicate Aggregable(country: string, data: seq<FileData>) {
    forall i :: 0 <= i < |data| ==> SnapshotReadable(country, data[i])
  }

  /** Data collected from the reports can be aggregated for any country. */
  lemma CollectedDataAggregable(country: string, data: seq<FileData>)
    requires forall i, k :: 0 <= i < |data| && 0 <= k < |data[i].data| ==> WellFormedEntry(data[i].data[k])
    ensures Aggregable(country, data)
  {
    forall i | 0 <= i < |data|
      ensures SnapshotReadable(country, data[i])
    {
      forall k | 0 <= k < |data[i].data|
        ensures EntryReadable(country, data[i].data[k])
      {
        assert WellFormedEntry(data[i].data[k]);
      }
    }
  }

  /** The three running totals of one snapshot. */
  datatype Tally = Tally(confirmed: int, deaths: int, recovered: int)

  const Zero := Tally(0, 0, 0)

  lemma AddAssociative(a: Tally, b: Tally, c: Tally)
    ensures Add(Add(a, b), c) == Add(a, Add(b, c))
  {
  }

  function Add(a: Tally, b: Tally): Tally {
    Tally(a.confirmed + b.confirmed, a.deaths + b.deaths, a.recovered + b.recovered)
  }

  /** The tallies f(xs[0]), ..., f(xs[n - 1]) added up in order. */
  function SumUpTo<T>(xs: seq<T>, f: T -> Tally, n: nat): Tally
    requires n <= |xs|
  {
    if n == 0 then Zero else Add(SumUpTo(xs, f, n - 1), f(xs[n - 1]))
  }

  function Sum<T>(xs: seq<T>, f: T -> Tally): Tally {
    SumUpTo(xs, f, |xs|)
  }

  lemma {:induction false} SumUpToAppend<T>(xs: seq<T>, ys: seq<T>, f: T -> Tally, n: nat)
    requires n <= |xs|
    ensures SumUpTo(xs + ys, f, n) == SumUpTo(xs, f, n)
  {
    if n > 0 {
      SumUpToAppend(xs, ys, f, n - 1);
      assert (xs + ys)[n - 1] == xs[n - 1];
    }
  }

  /** Appending one element adds its tally last. */
  lemma SumSnoc<T>(xs: seq<T>, x: T, f: T -> Tally)
    ensures Sum(xs + [x], f) == Add(Sum(xs, f), f(x))
  {
    SumUpToAppend(xs, [x], f, |xs|);
    assert (xs + [x])[|xs|] == x;
  }

  lemma {:induction false} SumAppend<T>(xs: seq<T>, ys: seq<T>, f: T -> Tally)
    ensures Sum(xs + ys, f) == Add(Sum(xs, f), Sum(ys, f))
    decreases |ys|
  {
    if ys == [] {
      assert xs + ys == xs;
    } else {
      var init, y := ys[..|ys| - 1], ys[|ys| - 1];
      assert ys == init + [y];
      assert xs + ys == (xs + init) + [y];
      SumAppend(xs, init, f);
      SumSnoc(xs + init, y, f);
      SumSnoc(init, y, f);
      AddAssociative(Sum(xs, f), Sum(init, f), f(y));
    }
  }

  lemma SumSingle<T>(x: T, f: T -> Tally)
    ensures Sum([x], f) == f(x)
  {
    assert [x][0] == x;
    assert SumUpTo([x], f, 0) == Zero;
  }

  lemma {:induction false} SumUpToZero<T>(xs: seq<T>, f: T -> Tally, n: nat)
    requires n <= |xs| && forall k :: 0 <= k < |xs| ==> f(xs[k]) == Zero
    ensures SumUpTo(xs, f, n) == Zero
  {
    if n > 0 {
      SumUpToZero(xs, f, n - 1);
    }
  }

  /** Reordering the elements does not change the sum: Add is commutative and associative. */
  lemma {:induction false} SumPermutation<T>(xs: seq<T>, ys: seq<T>, f: T -> Tally)
    requires multiset(xs) == multiset(ys)
    ensures Sum(xs, f) == Sum(ys, f)
    decreases |xs|
  {
    if xs == [] {
      assert |ys| == |multiset(ys)| == 0;
    } else {
      var last := |xs| - 1;
      var x := xs[last];
      var prefix := xs[..last];
      assert xs == prefix + [x];
      assert x in multiset(ys) by {
        assert x in multiset(xs);
      }
      var j :| 0 <= j < |ys| && ys[j] == x;
      var before, after := ys[..j], ys[j + 1..];
      var rest := before + after;
      assert ys == before + ([x] + after);
      assert multiset(prefix) == multiset(rest) by {
        MultisetRemove(ys, j);
        assert multiset(xs) == multiset(prefix) + multiset{x};
        MultisetCancel(multiset(prefix), multiset(rest), x);
      }
      SumPermutation(prefix, rest, f);
      SumSingle(x, f);
      SumAppend(prefix, [x], f);
      SumAppend([x], after, f);
      SumAppend(before, [x] + after, f);
      SumAppend(before, after, f);
    }
  }

  /**
   * What one row adds to the totals: its counts if its Country is the name,
   * else nothing. On a row the loop can read (EntryReadable) a matching row
   * always has its three counts, so the last branch is never taken there.
   */
  function Contribution(country: string, entry: Row): Tally {
    if |entry| > Country && IsCountry(country, entry) then
      if |entry| > Recovered && entry[Confirmed].Count? && entry[Deaths].Count? && entry[Recovered].Count? then
        Tally(entry[Confirmed].value, entry[Deaths].value, entry[Recovered].value)
      else
        Zero
    else
      Zero
  }

  function RowContribution(country: string): Row -> Tally {
    (entry: Row) => Contribution(country, entry)
  }

  /** The totals of the first n rows, accumulated in row order as the inner loop does. */
  function TotalsUpTo(country: string, entries: seq<Row>, n: nat): Tally
    requires n <= |entries|
  {
    SumUpTo(entries, RowContribution(country), n)
  }

  /** The totals of all rows of a snapshot. */
  function Totals(country: string, entries: seq<Row>): Tally {
    Sum(entries, RowContribution(country))
  }

  /** The totals of two runs of rows together are the sum of their totals. */
  lemma TotalsAppend(country: string, a: seq<Row>, b: seq<Row>)
    ensures Totals(country, a + b) == Add(Totals(country, a), Totals(country, b))
  {
    SumAppend(a, b, RowContribution(country));
  }

  /** Any reordering of a snapshot's rows leaves its totals unchanged. */
  lemma TotalsPermutation(country: string, a: seq<Row>, b: seq<Row>)
    requires multiset(a) == multiset(b)
    ensures Totals(country, a) == Totals(country, b)
  {
    SumPermutation(a, b, RowContribution(country));
  }

  /** Exchanging two runs of rows leaves the totals unchanged: a reordering like any other. */
  lemma TotalsSwap(country: string, a: seq<Row>, b: seq<Row>)
    ensures Totals(country, a + b) == Totals(country, b + a)
  {
    TotalsPermutation(country, a + b, b + a);
  }

  /** A single readable row counts exactly when its Country is the name, and then with its own counts. */
  lemma TotalsSingle(country: string, entry: Row)
    requires EntryReadable(country, entry)
    ensures Totals(country, [entry]) ==
      if IsCountry(country, entry) then
        Tally(entry[Confirmed].value, entry[Deaths].value, entry[Recovered].value)
      else
        Zero
  {
    SumSingle(entry, RowContribution(country));
  }

  /** A snapshot with no row for the country has totals 0, 0, 0. */
  lemma TotalsNoMatch(country: string, entries: seq<Row>)
    requires forall k :: 0 <= k < |entries| ==> |entries[k]| > Country && !IsCountry(country, entries[k])
    ensures Totals(country, entries) == Zero
  {
    SumUpToZero(entries, RowContribution(country), |entries|);
  }

  /** The optional min_day/max_day bounds, both inclusive. */
  predicate InDayRange(days: int, minDay: Option<int>, maxDay: Option<int>) {
    (minDay.None? || days >= minDay.value) && (maxDay.None? || days <= maxDay.value)
  }

  /** One element of the result: (date, total_confirmed, total_deaths, total_recovered). */
  datatype Point = Point(date: DateTimeTuple, confirmed: int, deaths: int, recovered: int)

  /** The point a snapshot contributes: its own date and its totals for the country. */
  function PointOf(country: string, datum: FileData): Point {
    var total := Totals(country, datum.data);
    Point(datum.date, total.confirmed, total.deaths, total.recovered)
  }

  /** The series the loop builds: one point per snapshot in range, in snapshot order. */
  function CumulativeSeries(country: string, data: seq<FileData>, minDay: Option<int>, maxDay: Option<int>): seq<Point>
  {
    if data == [] then
      []
    else
      var last := |data| - 1;
      CumulativeSeries(country, data[..last], minDay, maxDay)
        + (if InDayRange(data[last].date.days, minDay, maxDay) then [PointOf(country, data[last])] else [])
  }

  /** The positions of the snapshots whose day lies within the bounds, in increasing order. */
  function SelectedIndices(data: seq<FileData>, minDay: Option<int>, maxDay: Option<int>): (idx: seq<nat>)
    ensures forall k :: 0 <= k < |idx| ==> idx[k] < |data| && InDayRange(data[idx[k]].date.days, minDay, maxDay)
    ensures forall k, l :: 0 <= k < l < |idx| ==> idx[k] < idx[l]
    ensures forall i :: 0 <= i < |data| && InDayRange(data[i].date.days, minDay, maxDay) ==> i in idx
  {
    if data == [] then
      []
    else
      var last := |data| - 1;
      var prefix := data[..last];
      var earlier := SelectedIndices(prefix, minDay, maxDay);
      assert forall i :: 0 <= i < last ==> prefix[i] == data[i];
      earlier + (if InDayRange(data[last].date.days, minDay, maxDay) then [last] else [])
  }

  /**
   * The series holds exactly the snapshots within the bounds, in their
   * original order, each with its own date and totals.
   */
  lemma {:induction false} SeriesSelection(country: string, data: seq<FileData>, minDay: Option<int>, maxDay: Option<int>)
    ensures var series := CumulativeSeries(country, data, minDay, maxDay);
      var idx := SelectedIndices(data, minDay, maxDay);
      && |series| == |idx|
      && forall k :: 0 <= k < |idx| ==> series[k] == PointOf(country, data[idx[k]])
  {
    if data != [] {
      var last := |data| - 1;
      var prefix := data[..last];
      SeriesSelection(country, prefix, minDay, maxDay);
      var series, earlierSeries := CumulativeSeries(country, data, minDay, maxDay), CumulativeSeries(country, prefix, minDay, maxDay);
      var idx, earlierIdx := SelectedIndices(data, minDay, maxDay), SelectedIndices(prefix, minDay, maxDay);
      forall k | 0 <= k < |idx|
        ensures series[k] == PointOf(country, data[idx[k]])
      {
        if k < |earlierIdx| {
          assert series[k] == earlierSeries[k] && idx[k] == earlierIdx[k];
          assert prefix[earlierIdx[k]] == data[idx[k]];
        }
      }
    }
  }

  /** Without bounds there is one point per snapshot, in snapshot order, even when the totals are 0. */
  lemma {:induction false} SeriesUnbounded(country: string, data: seq<FileData>)
    ensures var series := CumulativeSeries(country, data, None, None);
      && |series| == |data|
      && forall i :: 0 <= i < |data| ==> series[i] == PointOf(country, data[i])
  {
    if data != [] {
      var last := |data| - 1;
      var prefix := data[..last];
      assert forall i :: 0 <= i < last ==> prefix[i] == data[i];
      SeriesUnbounded(country, prefix);
    }
  }

  /** With min_day == max_day == d every point kept is dated day d. */
  lemma SeriesSingleDay(country: string, data: seq<FileData>, d: int)
    ensures forall k :: 0 <= k < |CumulativeSeries(country, data, Some(d), Some(d))| ==>
      CumulativeSeries(country, data, Some(d), Some(d))[k].date.days == d
  {
    SeriesSelection(country, data, Some(d), Some(d));
  }

  /** With min_day == max_day == d and no snapshot on day d, nothing is kept. */
  lemma {:induction false} SeriesNoDay(country: string, data: seq<FileData>, d: int)
    requires forall i :: 0 <= i < |data| ==> data[i].date.days != d
    ensures CumulativeSeries(country, data, Some(d), Some(d)) == []
  {
    if data != [] {
      var last := |data| - 1;
      var prefix := data[..last];
      assert forall i :: 0 <= i < last ==> prefix[i] == data[i];
      SeriesNoDay(country, prefix, d);
    }
  }

  /** When no two snapshots share a day, bounds min_day == max_day keep at most one point. */
  lemma {:induction false} SeriesSingleDayAtMostOne(country: string, data: seq<FileData>, d: int)
    requires forall i, j :: 0 <= i < j < |data| ==> data[i].date.days != data[j].date.days
    ensures |CumulativeSeries(country, data, Some(d), Some(d))| <= 1
  {
    if data != [] {
      var last := |data| - 1;
      var prefix := data[..last];
      assert forall i :: 0 <= i < last ==> prefix[i] == data[i];
      if data[last].date.days == d {
        SeriesNoDay(country, prefix, d);
      } else {
        SeriesSingleDayAtMostOne(country, prefix, d);
      }
    }
  }

  /** The inner loop of get_cumulative_data_by_country: the three totals of one snapshot's rows. */
  method SnapshotTotals(country: string, entries: seq<Row>)
    returns (totalConfirmed: int, totalDeaths: int, totalRecovered: int)
    requires RowsReadable(country, entries)
    ensures Tally(totalConfirmed, totalDeaths, totalRecovered) == Totals(country, entries)
  {
    totalConfirmed, totalDeaths, totalRecovered := 0, 0, 0;
    var j := 0;
    while j < |entries|
      invariant 0 <= j <= |entries|
      invariant Tally(totalConfirmed, totalDeaths, totalRecovered) == TotalsUpTo(country, entries, j)
    {
      var entry := entries[j];
      if IsCountry(country, entry) {
        totalConfirmed := totalConfirmed + entry[Confirmed].value;
        totalDeaths := totalDeaths + entry[Deaths].value;
        totalRecovered := totalRecovered + entry[Recovered].value;
      }
      j := j + 1;
    }
  }

  /** get_cumulative_data_by_country: the outer loop over snapshots, keeping the ones within the bounds. */
  method CumulativeByCountry(country: string, data: seq<FileData>, minDay: Option<int>, maxDay: Option<int>)
    returns (results: seq<Point>)
    requires Aggregable(country, data)
    ensures results == CumulativeSeries(country, data, minDay, maxDay)
  {
    results := [];
    var i := 0;
    while i < |data|
      invariant 0 <= i <= |data|
      invariant results == CumulativeSeries(country, data[..i], minDay, maxDay)
    {
      var datum := data[i];
      var totalConfirmed, totalDeaths, totalRecovered := SnapshotTotals(country, datum.data);
      if minDay.None? || datum.date.days >= minDay.value {
        if maxDay.None? || datum.date.days <= maxDay.value {
          results := results + [Point(datum.date, totalConfirmed, totalDeaths, totalRecovered)];
        }
      }
      PrefixOfPrefix(data, i);
      i := i + 1;
    }
    WholePrefix(data);
  }

  /** Python's truth value of an optional day bound: None and 0 are false. */
  predicate Truthy(bound: Option<int>) {
    bound.Some? && bound.value != 0
  }

  /** get_title: "Total <country> Cases"; every branch on the bounds leaves it unchanged. */
  function Title(country: string, minDay: Option<int>, maxDay: Option<int>): (title: string)
    ensures |title| == |country| + 12
    ensures title[..6] == "Total " && title[6..6 + |country|] == country && title[6 + |country|..] == " Cases"
  {
    var title := "Total " + country + " Cases";
    if Truthy(minDay) && Truthy(maxDay) then title
    else if Truthy(minDay) then title
    else if Truthy(maxDay) then title
    else title
  }

  /** The title names the country and nothing else: different countries, different titles, whatever the bounds. */
  lemma TitleIdentifiesCountry(a: string, b: string, minA: Option<int>, maxA: Option<int>, minB: Option<int>, maxB: Option<int>)
    ensures Title(a, minA, maxA) == Title(b, minB, maxB) <==> a == b
  {
    if Title(a, minA, maxA) == Title(b, minB, maxB) {
      assert |a| == |b|;
      assert a == Title(a, minA, maxA)[6..6 + |a|];
    }
  }
}
