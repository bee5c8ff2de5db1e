/**
  The `summary` that `updateChart` computes (plot.js lines 65-80): the rows are
  grouped by the selected column, each group's rows are binned by time, each
  bin is summarised, and each group's bins are sorted by time.
*/
module Aggregation {
  import opened Groups
  import opened Stats
  import opened Table

  /** `pts.map(p => p[selectedVital])`. */
  function Readings(vital: Vital, pts: seq<Row>): seq<real>
  {
    seq(|pts|, i requires 0 <= i < |pts| => Reading(vital, pts[i]))
  }

  /**
    The object built for one bin at plot.js lines 72-77: its time is the bin's
    key, its mean and deviation are those of the bin's readings (the deviation
    absent exactly when the bin holds a single row) and its value is the first
    row's reading.
  */
  function BinPoint(vital: Vital, root: real -> real, t: real, pts: seq<Row>): (b: Bin)
    requires |pts| > 0
    ensures b.normTime == t
    ensures b.mean == Mean(Readings(vital, pts)).value
    ensures b.sd == Deviation(Readings(vital, pts), root)
    ensures b.sd.None? <==> |pts| == 1
    ensures b.value == Reading(vital, pts[0])
  {
    var v := Readings(vital, pts);
    Bin(t, Mean(v).value, Deviation(v, root), v[0])
  }

  ghost predicate Ascending(bs: seq<Bin>)
  {
    forall i, j :: 0 <= i < j < |bs| ==> bs[i].normTime <= bs[j].normTime
  }

  ghost predicate StrictlyAscending(bs: seq<Bin>)
  {
    forall i, j :: 0 <= i < j < |bs| ==> bs[i].normTime < bs[j].normTime
  }

  ghost predicate DistinctTimes(bs: seq<Bin>)
  {
    forall i, j :: 0 <= i < j < |bs| ==> bs[i].normTime != bs[j].normTime
  }

  /** Inserts `b` into time-ordered bins, before the first bin that is not earlier. */
  function InsertByTime(b: Bin, bs: seq<Bin>): (r: seq<Bin>)
    requires Ascending(bs)
    ensures |r| == |bs| + 1
    ensures r[0] == if bs == [] || b.normTime <= bs[0].normTime then b else bs[0]
    ensures Ascending(r)
    ensures multiset(r) == multiset(bs) + multiset{b}
    ensures StrictlyAscending(bs) && (forall i :: 0 <= i < |bs| ==> bs[i].normTime != b.normTime)
      ==> StrictlyAscending(r)
  {
    if bs == [] then [b]
    else if b.normTime <= bs[0].normTime then
      PrependKeepsOrder(b, bs);
      [b] + bs
    else
      var rest := InsertByTime(b, bs[1..]);
      InsertBehind(b, bs, rest);
      [bs[0]] + rest
  }

  /** The recursive case of `InsertByTime`: `b` goes behind the first bin, into the rest. */
  lemma InsertBehind(b: Bin, bs: seq<Bin>, rest: seq<Bin>)
    requires Ascending(bs) && |bs| > 0 && bs[0].normTime < b.normTime
    requires |rest| == |bs| && Ascending(rest)
    requires rest[0] == if |bs| == 1 || b.normTime <= bs[1].normTime then b else bs[1]
    requires multiset(rest) == multiset(bs[1..]) + multiset{b}
    requires StrictlyAscending(bs[1..]) && (forall i :: 0 <= i < |bs[1..]| ==> bs[1..][i].normTime != b.normTime)
      ==> StrictlyAscending(rest)
    ensures Ascending([bs[0]] + rest)
    ensures multiset([bs[0]] + rest) == multiset(bs) + multiset{b}
    ensures StrictlyAscending(bs) && (forall i :: 0 <= i < |bs| ==> bs[i].normTime != b.normTime)
      ==> StrictlyAscending([bs[0]] + rest)
  {
    assert bs == [bs[0]] + bs[1..];
    PrependKeepsOrder(bs[0], rest);
  }

  /** A bin no later than the first of ascending bins can go in front of them; strictly earlier keeps strictness. */
  lemma PrependKeepsOrder(c: Bin, rest: seq<Bin>)
    requires Ascending(rest) && (rest == [] || c.normTime <= rest[0].normTime)
    ensures Ascending([c] + rest)
    ensures StrictlyAscending(rest) && (rest == [] || c.normTime < rest[0].normTime)
      ==> StrictlyAscending([c] + rest)
  {
    var r := [c] + rest;
    forall i, j | 0 <= i < j < |r| ensures r[i].normTime <= r[j].normTime {
      if i > 0 {
        assert r[i] == rest[i - 1] && r[j] == rest[j - 1];
      } else if j > 1 {
        assert rest[0].normTime <= rest[j - 1].normTime;
      }
    }
  }

  /** When the times are distinct, the first bin's time is not among those of any permutation of the rest. */
  lemma HeadTimeIsNew(bs: seq<Bin>, rest: seq<Bin>)
    requires |bs| > 0 && multiset(rest) == multiset(bs[1..])
    ensures DistinctTimes(bs) ==> forall i :: 0 <= i < |rest| ==> rest[i].normTime != bs[0].normTime
  {
    if DistinctTimes(bs) {
      forall i | 0 <= i < |rest| ensures rest[i].normTime != bs[0].normTime {
        assert rest[i] in multiset(bs[1..]);
        var j :| 0 <= j < |bs[1..]| && bs[1..][j] == rest[i];
        assert bs[j + 1] == rest[i];
      }
    }
  }

  /**
    `binned.sort((a, b) => a.norm_time - b.norm_time)` (plot.js line 79): a
    permutation of the bins in ascending time, strictly ascending when the times
    are distinct.
  */
  function SortByTime(bs: seq<Bin>): (r: seq<Bin>)
    ensures Ascending(r)
    ensures multiset(r) == multiset(bs)
    ensures DistinctTimes(bs) ==> StrictlyAscending(r)
  {
    if bs == [] then []
    else
      var rest := SortByTime(bs[1..]);
      assert bs == [bs[0]] + bs[1..];
      HeadTimeIsNew(bs, rest);
      InsertByTime(bs[0], rest)
  }

  /** The rows of `pts` that fall into the bin at time `t`, in input order. */
  function BinRows(pts: seq<Row>, t: real): seq<Row>
  {
    Select(pts, RowBinTime, t)
  }

  /** The bins of one group before sorting: one per distinct bin time, in order of first appearance. */
  function UnsortedBins(vital: Vital, root: real -> real, pts: seq<Row>): seq<Bin>
  {
    var groups := GroupBy(pts, RowBinTime);
    GroupByIsGrouping(pts, RowBinTime);
    seq(|groups|, i requires 0 <= i < |groups| => BinPoint(vital, root, groups[i].0, groups[i].1))
  }

  /** Each bin sits at a bin time and is the summary of exactly the rows of `pts` that fall into it. */
  ghost predicate BinsSummariseRows(vital: Vital, root: real -> real, pts: seq<Row>, r: seq<Bin>)
  {
    forall j :: 0 <= j < |r| ==>
      && IsBinTime(r[j].normTime)
      && |BinRows(pts, r[j].normTime)| > 0
      && r[j] == BinPoint(vital, root, r[j].normTime, BinRows(pts, r[j].normTime))
  }

  /** The `values` of one series (plot.js lines 68-79): the group's bins, sorted by time. */
  function BinSeries(vital: Vital, root: real -> real, pts: seq<Row>): seq<Bin>
  {
    UnsortedBinsShape(vital, root, pts);
    SortByTime(UnsortedBins(vital, root, pts))
  }

  /**
    The bins of one series are strictly ascending in time, each sits at a bin
    time and is the summary of exactly the group's rows that fall into it; a
    non-empty group has at least one bin.
  */
  lemma BinSeriesShape(vital: Vital, root: real -> real, pts: seq<Row>)
    ensures StrictlyAscending(BinSeries(vital, root, pts))
    ensures |BinSeries(vital, root, pts)| == 0 <==> |pts| == 0
    ensures BinsSummariseRows(vital, root, pts, BinSeries(vital, root, pts))
  {
    UnsortedBinsShape(vital, root, pts);
    BinsOfPermutation(vital, root, pts, BinSeries(vital, root, pts));
  }

  /** Every bin of a permutation of the unsorted bins is an unsorted bin, so has its properties. */
  lemma BinsOfPermutation(vital: Vital, root: real -> real, pts: seq<Row>, r: seq<Bin>)
    requires multiset(r) == multiset(UnsortedBins(vital, root, pts))
    ensures |r| == |UnsortedBins(vital, root, pts)|
    ensures forall j :: 0 <= j < |r| ==>
      && IsBinTime(r[j].normTime)
      && |BinRows(pts, r[j].normTime)| > 0
      && r[j] == BinPoint(vital, root, r[j].normTime, BinRows(pts, r[j].normTime))
  {
    var u := UnsortedBins(vital, root, pts);
    assert |multiset(r)| == |multiset(u)|;
    forall j | 0 <= j < |r| ensures
      && IsBinTime(r[j].normTime)
      && |BinRows(pts, r[j].normTime)| > 0
      && r[j] == BinPoint(vital, root, r[j].normTime, BinRows(pts, r[j].normTime))
    {
      assert r[j] in multiset(u);
      var m :| 0 <= m < |u| && u[m] == r[j];
      UnsortedBinAt(vital, root, pts, m);
    }
  }

  /** The unsorted bins have distinct times, and there are some exactly when there are rows. */
  lemma UnsortedBinsShape(vital: Vital, root: real -> real, pts: seq<Row>)
    ensures DistinctTimes(UnsortedBins(vital, root, pts))
    ensures |UnsortedBins(vital, root, pts)| == 0 <==> |pts| == 0
  {
    var groups := GroupBy(pts, RowBinTime);
    GroupByIsGrouping(pts, RowBinTime);
    var u := UnsortedBins(vital, root, pts);
    assert DistinctKeys(groups);
    assert forall m :: 0 <= m < |u| ==> u[m].normTime == groups[m].0;
    if |pts| > 0 {
      assert Covers(pts, RowBinTime, groups);
      assert IndexOfKey(groups, RowBinTime(pts[0])) < |groups|;
    }
  }

  /** Each unsorted bin sits at a bin time and summarises exactly the rows that fall into it. */
  lemma UnsortedBinAt(vital: Vital, root: real -> real, pts: seq<Row>, m: nat)
    requires m < |UnsortedBins(vital, root, pts)|
    ensures var b := UnsortedBins(vital, root, pts)[m];
      && IsBinTime(b.normTime)
      && |BinRows(pts, b.normTime)| > 0
      && b == BinPoint(vital, root, b.normTime, BinRows(pts, b.normTime))
  {
    var groups := GroupBy(pts, RowBinTime);
    GroupByIsGrouping(pts, RowBinTime);
    assert MembersSelected(pts, RowBinTime, groups);
    assert groups[m].1 == BinRows(pts, groups[m].0);
    assert RowBinTime(groups[m].1[0]) == groups[m].0;
  }

  /** The rows whose selected categorical column holds `k`, in input order. */
  function GroupRows(rows: seq<Row>, column: GroupColumn, k: string): seq<Row>
  {
    Select(rows, GroupKey(column), k)
  }

  /** Series keys are distinct, each occurs in some row, and they come in order of first appearance. */
  ghost predicate OneSeriesPerKey(rows: seq<Row>, column: GroupColumn, r: seq<Series>)
  {
    && (forall i, j :: 0 <= i < j < |r| ==> r[i].key != r[j].key)
    && (forall i :: 0 <= i < |r| ==> FirstIndex(rows, GroupKey(column), r[i].key) < |rows|)
    && (forall i, j :: 0 <= i < j < |r| ==>
          FirstIndex(rows, GroupKey(column), r[i].key) < FirstIndex(rows, GroupKey(column), r[j].key))
  }

  /** Each series holds the bins of exactly the rows with its key. */
  ghost predicate SeriesBinTheirRows(rows: seq<Row>, column: GroupColumn, vital: Vital, root: real -> real, r: seq<Series>)
  {
    forall i :: 0 <= i < |r| ==> r[i].values == BinSeries(vital, root, GroupRows(rows, column, r[i].key))
  }

  /**
    `summary` (plot.js lines 65-80): one series per distinct value of the
    selected column, keys pairwise distinct and each present in some row, in
    order of first appearance; each series holds the sorted bins of exactly the
    rows with its key, and has at least one bin. There are no series exactly
    when there are no rows.
  */
  function Summary(rows: seq<Row>, column: GroupColumn, vital: Vital, root: real -> real): (r: seq<Series>)
    ensures |r| == 0 <==> |rows| == 0
    ensures OneSeriesPerKey(rows, column, r)
    ensures SeriesBinTheirRows(rows, column, vital, root, r)
    ensures forall i :: 0 <= i < |r| ==> |r[i].values| > 0
  {
    var r := SeriesOf(vital, root, GroupBy(rows, GroupKey(column)));
    SeriesOfKeys(rows, column, vital, root, r);
    SeriesOfBins(rows, column, vital, root, r);
    r
  }

  /** One series per group, holding the group's key and the bins of its rows. */
  function SeriesOf(vital: Vital, root: real -> real, groups: seq<(string, seq<Row>)>): (r: seq<Series>)
    ensures |r| == |groups| && forall i :: 0 <= i < |r| ==> r[i].key == groups[i].0
  {
    seq(|groups|, i requires 0 <= i < |groups| => Series(groups[i].0, BinSeries(vital, root, groups[i].1)))
  }

  lemma SeriesOfKeys(rows: seq<Row>, column: GroupColumn, vital: Vital, root: real -> real, r: seq<Series>)
    requires r == SeriesOf(vital, root, GroupBy(rows, GroupKey(column)))
    ensures |r| == 0 <==> |rows| == 0
    ensures OneSeriesPerKey(rows, column, r)
  {
    var g := GroupBy(rows, GroupKey(column));
    assert |r| == |g| && forall i :: 0 <= i < |r| ==> r[i].key == g[i].0;
    KeysOfGrouping(rows, column, r);
  }

  /** Series that carry the keys of the grouping of `rows`, in its order, have one key each in first-appearance order. */
  lemma KeysOfGrouping(rows: seq<Row>, column: GroupColumn, r: seq<Series>)
    requires |r| == |GroupBy(rows, GroupKey(column))|
    requires forall i :: 0 <= i < |r| ==> r[i].key == GroupBy(rows, GroupKey(column))[i].0
    ensures |r| == 0 <==> |rows| == 0
    ensures OneSeriesPerKey(rows, column, r)
  {
    GroupingKeys(rows, GroupKey(column));
    SeriesKeys(rows, column, GroupBy(rows, GroupKey(column)), r);
  }

  lemma SeriesOfBins(rows: seq<Row>, column: GroupColumn, vital: Vital, root: real -> real, r: seq<Series>)
    requires r == SeriesOf(vital, root, GroupBy(rows, GroupKey(column)))
    ensures SeriesBinTheirRows(rows, column, vital, root, r)
    ensures forall i :: 0 <= i < |r| ==> |r[i].values| > 0
  {
    GroupingMembers(rows, GroupKey(column));
    SeriesBins(rows, column, vital, root, GroupBy(rows, GroupKey(column)), r);
  }

  /** Series holding the bins of a grouping's groups hold the bins of their keys' rows. */
  lemma SeriesBins(
    rows: seq<Row>, column: GroupColumn, vital: Vital, root: real -> real,
    g: seq<(string, seq<Row>)>, r: seq<Series>)
    requires forall i :: 0 <= i < |g| ==> g[i].1 == GroupRows(rows, column, g[i].0) && |g[i].1| > 0
    requires |r| == |g| && forall i :: 0 <= i < |g| ==> r[i] == Series(g[i].0, BinSeries(vital, root, g[i].1))
    ensures SeriesBinTheirRows(rows, column, vital, root, r)
    ensures forall i :: 0 <= i < |r| ==> |r[i].values| > 0
  {
    forall i | 0 <= i < |r| ensures |r[i].values| > 0 {
      BinSeriesShape(vital, root, g[i].1);
    }
  }

  /** Series carrying the keys of a grouping, in its order, have one key each in first-appearance order. */
  lemma SeriesKeys(rows: seq<Row>, column: GroupColumn, g: seq<(string, seq<Row>)>, r: seq<Series>)
    requires forall i, j :: 0 <= i < j < |g| ==> g[i].0 != g[j].0
    requires forall i :: 0 <= i < |g| ==> FirstIndex(rows, GroupKey(column), g[i].0) < |rows|
    requires forall i, j :: 0 <= i < j < |g| ==>
      FirstIndex(rows, GroupKey(column), g[i].0) < FirstIndex(rows, GroupKey(column), g[j].0)
    requires |r| == |g| && forall i :: 0 <= i < |g| ==> r[i].key == g[i].0
    ensures OneSeriesPerKey(rows, column, r)
  {
    var key := GroupKey(column);
    forall i | 0 <= i < |r| ensures FirstIndex(rows, key, r[i].key) == FirstIndex(rows, key, g[i].0) {
      assert r[i].key == g[i].0;
    }
  }

  /** The key properties of a grouping that `Summary` passes on, spelled out. */
  lemma GroupingKeys<K>(rows: seq<Row>, key: Row -> K)
    ensures var g := GroupBy(rows, key);
      && (|g| == 0 <==> |rows| == 0)
      && (forall i, j :: 0 <= i < j < |g| ==> g[i].0 != g[j].0)
      && (forall i :: 0 <= i < |g| ==> FirstIndex(rows, key, g[i].0) < |rows|)
      && (forall i, j :: 0 <= i < j < |g| ==> FirstIndex(rows, key, g[i].0) < FirstIndex(rows, key, g[j].0))
  {
    var g := GroupBy(rows, key);
    GroupByIsGrouping(rows, key);
    assert DistinctKeys(g) && KeysOccur(rows, key, g) && FirstAppearanceOrder(rows, key, g);
    if |rows| > 0 {
      assert Covers(rows, key, g);
      assert IndexOfKey(g, key(rows[0])) < |g|;
    }
  }

  /** The members of a grouping that `Summary` passes on, spelled out. */
  lemma GroupingMembers<K>(rows: seq<Row>, key: Row -> K)
    ensures var g := GroupBy(rows, key);
      forall i :: 0 <= i < |g| ==> g[i].1 == Select(rows, key, g[i].0) && |g[i].1| > 0
  {
    GroupByIsGrouping(rows, key);
    assert MembersSelected(rows, key, GroupBy(rows, key));
  }

  /** Every row's value in the selected column is the key of exactly one series. */
  lemma SummaryCoversRows(rows: seq<Row>, column: GroupColumn, vital: Vital, root: real -> real, p: nat)
    requires p < |rows|
    ensures exists i ::
              && 0 <= i < |Summary(rows, column, vital, root)|
              && Summary(rows, column, vital, root)[i].key == GroupValue(column, rows[p])
    ensures forall i, j ::
              && 0 <= i < |Summary(rows, column, vital, root)|
              && 0 <= j < |Summary(rows, column, vital, root)|
              && Summary(rows, column, vital, root)[i].key == GroupValue(column, rows[p])
              && Summary(rows, column, vital, root)[j].key == GroupValue(column, rows[p])
              ==> i == j
  {
    var g := GroupBy(rows, GroupKey(column));
    GroupByIsGrouping(rows, GroupKey(column));
    assert Covers(rows, GroupKey(column), g);
    var i := IndexOfKey(g, GroupKey(column)(rows[p]));
    assert Summary(rows, column, vital, root)[i].key == g[i].0;
  }

  /** Every row of a group lands in the bin at its own bin time. */
  lemma BinSeriesCoversRows(vital: Vital, root: real -> real, pts: seq<Row>, p: nat)
    requires p < |pts|
    ensures exists j :: 0 <= j < |BinSeries(vital, root, pts)| && BinSeries(vital, root, pts)[j].normTime == RowBinTime(pts[p])
  {
    var groups := GroupBy(pts, RowBinTime);
    GroupByIsGrouping(pts, RowBinTime);
    assert Covers(pts, RowBinTime, groups);
    var m := IndexOfKey(groups, RowBinTime(pts[p]));
    var u := UnsortedBins(vital, root, pts);
    assert u[m].normTime == RowBinTime(pts[p]);
    var r := BinSeries(vital, root, pts);
    assert r == SortByTime(u);
    assert multiset(r) == multiset(u);
    assert u[m] in multiset(r);
    var j :| 0 <= j < |r| && r[j] == u[m];
  }

  /** Every row lands in a bin of the series of its group, at the row's bin time. */
  lemma SummaryCoversRowBins(rows: seq<Row>, column: GroupColumn, vital: Vital, root: real -> real, p: nat)
    requires p < |rows|
    ensures var r := Summary(rows, column, vital, root);
      exists i, j ::
        && 0 <= i < |r| && 0 <= j < |r[i].values|
        && r[i].key == GroupValue(column, rows[p])
        && r[i].values[j].normTime == RowBinTime(rows[p])
  {
    var r := Summary(rows, column, vital, root);
    SummaryCoversRows(rows, column, vital, root, p);
    var i :| 0 <= i < |r| && r[i].key == GroupValue(column, rows[p]);
    var j := GroupRowHasBin(rows, column, vital, root, i, p);
  }

  /** A row with the key of series `i` lands in one of its bins. */
  lemma GroupRowHasBin(rows: seq<Row>, column: GroupColumn, vital: Vital, root: real -> real, i: nat, p: nat)
    returns (j: nat)
    requires i < |Summary(rows, column, vital, root)| && p < |rows|
    requires Summary(rows, column, vital, root)[i].key == GroupValue(column, rows[p])
    ensures j < |Summary(rows, column, vital, root)[i].values|
    ensures Summary(rows, column, vital, root)[i].values[j].normTime == RowBinTime(rows[p])
  {
    var s := Summary(rows, column, vital, root)[i];
    var pts := GroupRows(rows, column, s.key);
    assert s.values == BinSeries(vital, root, pts);
    SelectKeeps(rows, GroupKey(column), s.key, p);
    var q :| 0 <= q < |pts| && pts[q] == rows[p];
    BinSeriesCoversRows(vital, root, pts, q);
    j :| j < |s.values| && s.values[j].normTime == RowBinTime(pts[q]);
  }

  /**
    Bin `j` of series `k` sits at a bin time and summarises exactly the rows
    whose selected column holds the series' key and whose time falls into the
    bin; there is at least one such row.
  */
  lemma SummaryBinAt(rows: seq<Row>, column: GroupColumn, vital: Vital, root: real -> real, k: nat, j: nat)
    requires k < |Summary(rows, column, vital, root)|
    requires j < |Summary(rows, column, vital, root)[k].values|
    ensures var s := Summary(rows, column, vital, root)[k];
      var b := s.values[j];
      var pts := BinRows(GroupRows(rows, column, s.key), b.normTime);
      && IsBinTime(b.normTime)
      && |pts| > 0
      && (forall q :: 0 <= q < |pts| ==> GroupValue(column, pts[q]) == s.key && RowBinTime(pts[q]) == b.normTime)
      && b == BinPoint(vital, root, b.normTime, pts)
  {
    var s := Summary(rows, column, vital, root)[k];
    assert s.values == BinSeries(vital, root, GroupRows(rows, column, s.key));
    GroupBinAt(rows, column, vital, root, s.key, j);
  }

  /** Bin `j` of the rows whose selected column holds `key`, spelled out. */
  lemma GroupBinAt(rows: seq<Row>, column: GroupColumn, vital: Vital, root: real -> real, key: string, j: nat)
    requires j < |BinSeries(vital, root, GroupRows(rows, column, key))|
    ensures var b := BinSeries(vital, root, GroupRows(rows, column, key))[j];
      var pts := BinRows(GroupRows(rows, column, key), b.normTime);
      && IsBinTime(b.normTime)
      && |pts| > 0
      && (forall q :: 0 <= q < |pts| ==> GroupValue(column, pts[q]) == key && RowBinTime(pts[q]) == b.normTime)
      && b == BinPoint(vital, root, b.normTime, pts)
  {
    var group := GroupRows(rows, column, key);
    BinSeriesShape(vital, root, group);
    assert BinsSummariseRows(vital, root, group, BinSeries(vital, root, group));
    SelectWithin(rows, GroupKey(column), key, RowBinTime, BinSeries(vital, root, group)[j].normTime);
  }

  /** The bins of every series of the summary are strictly ascending in time. */
  lemma SummaryBinsAscending(rows: seq<Row>, column: GroupColumn, vital: Vital, root: real -> real, k: nat)
    requires k < |Summary(rows, column, vital, root)|
    ensures StrictlyAscending(Summary(rows, column, vital, root)[k].values)
  {
    var s := Summary(rows, column, vital, root)[k];
    assert s.values == BinSeries(vital, root, GroupRows(rows, column, s.key));
    BinSeriesShape(vital, root, GroupRows(rows, column, s.key));
  }

  /** With a root that keeps non-negative numbers non-negative, every deviation in the summary is non-negative. */
  lemma SummaryDeviationsNonNegative(rows: seq<Row>, column: GroupColumn, vital: Vital, root: real -> real)
    requires forall x :: 0.0 <= x ==> 0.0 <= root(x)
    ensures var r := Summary(rows, column, vital, root);
      forall k, j :: 0 <= k < |r| && 0 <= j < |r[k].values| && r[k].values[j].sd.Some? ==>
        r[k].values[j].sd.value >= 0.0
  {
    var r := Summary(rows, column, vital, root);
    forall k, j | 0 <= k < |r| && 0 <= j < |r[k].values| && r[k].values[j].sd.Some?
      ensures r[k].values[j].sd.value >= 0.0
    {
      SummaryBinAt(rows, column, vital, root, k, j);
      var b := r[k].values[j];
      DeviationNonNegative(Readings(vital, BinRows(GroupRows(rows, column, r[k].key), b.normTime)), root);
    }
  }
}
