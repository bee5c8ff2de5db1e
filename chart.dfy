/**
  The data side of `updateChart` (plot.js lines 61-87): from the loaded rows
  and the two selectors' choices to the series that are drawn and the y-axis
  domain. The drawing itself (plot.js lines 89-103) is not modelled.
*/
module Chart {
  import opened Wrappers
  import opened Stats
  import opened Table
  import opened Aggregation
  import opened Selection
  import opened Domain

  /** What one call of `updateChart` hands to the renderer: the visible series and the y-axis domain. */
  datatype ChartView = ChartView(visible: seq<Series>, yDomain: Option<Interval>)

  /**
    One recomputation: the visible series are those of the summary that pass
    the selection (all of them when nothing is active), and the y-axis domain is
    the band of the visible bins, absent exactly when nothing is visible, since
    every series has a bin.
  */
  function UpdateChart(rows: seq<Row>, vital: Vital, column: GroupColumn, active: set<string>, root: real -> real)
    : (v: ChartView)
    ensures |active| == 0 ==> v.visible == Summary(rows, column, vital, root)
    ensures forall s :: s in v.visible <==> s in Summary(rows, column, vital, root) && IsVisible(active, s.key)
    ensures IsSubsequence(v.visible, Summary(rows, column, vital, root))
    ensures v.yDomain.None? <==> |v.visible| == 0
    ensures v.yDomain == YDomain(v.visible)
    ensures |rows| == 0 ==> v.visible == [] && v.yDomain.None?
  {
    var summary := Summary(rows, column, vital, root);
    var visible := VisibleSeries(summary, active);
    VisibleSeriesHaveBins(summary, visible);
    DomainAbsentIffNothingVisible(visible);
    ChartView(visible, YDomain(visible))
  }

  /** Every series of a sub-list of the summary has at least one bin. */
  lemma VisibleSeriesHaveBins(summary: seq<Series>, visible: seq<Series>)
    requires forall i :: 0 <= i < |summary| ==> |summary[i].values| > 0
    requires forall s :: s in visible ==> s in summary
    ensures forall i :: 0 <= i < |visible| ==> |visible[i].values| > 0
  {
    forall i | 0 <= i < |visible| ensures |visible[i].values| > 0 {
      assert visible[i] in summary;
    }
  }

  /**
    Every bin of every visible series summarises exactly the rows whose
    selected column holds the series' key and whose time falls into the bin:
    there is at least one such row, the bin's time is a multiple of the bin
    width, its mean is the mean of those rows' readings, its deviation is absent
    exactly when there is one such row, and its value is the first row's reading.
  */
  lemma VisibleBinSummarisesRows(
    rows: seq<Row>, vital: Vital, column: GroupColumn, active: set<string>, root: real -> real, i: nat, j: nat)
    requires i < |UpdateChart(rows, vital, column, active, root).visible|
    requires j < |UpdateChart(rows, vital, column, active, root).visible[i].values|
    ensures var s := UpdateChart(rows, vital, column, active, root).visible[i];
      var b := s.values[j];
      var pts := BinRows(GroupRows(rows, column, s.key), b.normTime);
      && IsVisible(active, s.key)
      && IsBinTime(b.normTime)
      && |pts| > 0
      && (forall q :: 0 <= q < |pts| ==> GroupValue(column, pts[q]) == s.key && RowBinTime(pts[q]) == b.normTime)
      && b.mean == Mean(Readings(vital, pts)).value
      && (b.sd.None? <==> |pts| == 1)
      && b.value == Reading(vital, pts[0])
  {
    var summary := Summary(rows, column, vital, root);
    var s := UpdateChart(rows, vital, column, active, root).visible[i];
    assert s in summary;
    var k :| 0 <= k < |summary| && summary[k] == s;
    SummaryBinAt(rows, column, vital, root, k, j);
  }

  /** With a square root that is non-negative on non-negative input, the y-axis domain is never inverted. */
  lemma ChartDomainOrdered(rows: seq<Row>, vital: Vital, column: GroupColumn, active: set<string>, root: real -> real)
    requires forall x :: 0.0 <= x ==> 0.0 <= root(x)
    ensures var d := UpdateChart(rows, vital, column, active, root).yDomain;
      d.Some? ==> d.value.lower <= d.value.upper
  {
    var summary := Summary(rows, column, vital, root);
    SummaryDeviationsNonNegative(rows, column, vital, root);
    var visible := UpdateChart(rows, vital, column, active, root).visible;
    forall i, j | 0 <= i < |visible| && 0 <= j < |visible[i].values|
      ensures visible[i].values[j].sd.Some? ==> visible[i].values[j].sd.value >= 0.0
    {
      assert visible[i] in summary;
    }
    DomainOrdered(visible);
  }
}
