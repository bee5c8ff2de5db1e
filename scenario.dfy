/**
  A worked example: two heart-rate readings of group "A" at time 0.0 and one
  of group "B" at time 0.5, grouped by operation type.
*/
module Scenario {
  import opened Wrappers
  import opened Groups
  import opened Stats
  import opened Table
  import opened Aggregation

  function ExampleRows(): seq<Row>
  {
    [ Row("A", "N", 0.0, 0.0, 80.0, 0.0),
      Row("A", "N", 0.0, 0.0, 100.0, 0.0),
      Row("B", "N", 0.5, 0.0, 40.0, 0.0) ]
  }

  /**
    Series "A" has one bin at 0.0 with mean 90 and deviation the square root of
    200; series "B" has one bin at 0.5 with mean 40 and no deviation.
  */
  lemma ExampleSummary(root: real -> real)
    ensures Summary(ExampleRows(), OpType, Hr, root) ==
      [ Series("A", [Bin(0.0, 90.0, Some(root(200.0)), 80.0)]),
        Series("B", [Bin(0.5, 40.0, None, 40.0)]) ]
  {
    ExampleGroups();
    ExampleSeries(root);
  }

  /** The series built from the two groups of the example. */
  lemma ExampleSeries(root: real -> real)
    ensures SeriesOf(Hr, root, [("A", ExampleRows()[..2]), ("B", ExampleRows()[2..])]) ==
      [ Series("A", [Bin(0.0, 90.0, Some(root(200.0)), 80.0)]),
        Series("B", [Bin(0.5, 40.0, None, 40.0)]) ]
  {
    ExampleBinsA(root);
    ExampleBinsB(root);
  }

  /** Grouping by operation type gives "A" with the first two rows, then "B" with the third. */
  lemma ExampleGroups()
    ensures GroupBy(ExampleRows(), GroupKey(OpType)) == [("A", ExampleRows()[..2]), ("B", ExampleRows()[2..])]
  {
    var rows := ExampleRows();
    var a := rows[..2];
    var key := GroupKey(OpType);
    assert rows[..1] == [rows[0]] && a[..1] == [rows[0]] && rows[..|rows| - 1] == a;
    assert GroupBy(rows[..1], key) == [("A", [rows[0]])];
    assert GroupBy(a, key) == [("A", a)] by {
      assert a[..|a| - 1] == [rows[0]];
      assert IndexOfKey([("A", [rows[0]])], "A") == 0;
      assert [rows[0]] + [rows[1]] == a;
    }
  }

  /** The two "A" rows share the bin at 0.0: mean 90, deviation the root of 200, first reading 80. */
  lemma ExampleBinsA(root: real -> real)
    ensures BinSeries(Hr, root, ExampleRows()[..2]) == [Bin(0.0, 90.0, Some(root(200.0)), 80.0)]
  {
    var rows := ExampleRows();
    var a := rows[..2];
    assert a[..1] == [rows[0]];
    assert BinTime(0.0) == 0.0;
    assert GroupBy(a[..1], RowBinTime) == [(0.0, [rows[0]])];
    assert GroupBy(a, RowBinTime) == [(0.0, a)] by {
      assert a[..|a| - 1] == [rows[0]];
      assert RowBinTime(a[1]) == 0.0;
      assert IndexOfKey([(0.0, [rows[0]])], 0.0) == 0;
      assert [rows[0]] + [rows[1]] == a;
    }
    var v := [80.0, 100.0];
    assert Readings(Hr, a) == v;
    assert v[..1] == [80.0] && [80.0][..0] == [];
    assert Mean(v) == Some(90.0);
    assert SquaredDeviations(v, 90.0) == 200.0;
    assert Deviation(v, root) == Some(root(200.0));
    assert UnsortedBins(Hr, root, a) == [Bin(0.0, 90.0, Some(root(200.0)), 80.0)];
  }

  /** The "B" row is alone in the bin at 0.5: mean 40, no deviation, first reading 40. */
  lemma ExampleBinsB(root: real -> real)
    ensures BinSeries(Hr, root, ExampleRows()[2..]) == [Bin(0.5, 40.0, None, 40.0)]
  {
    var b := ExampleRows()[2..];
    assert BinTime(0.5) == 0.5 by {
      assert 0.5 / BinSize + 0.5 == 50.5;
    }
    assert b[..0] == [];
    assert GroupBy(b, RowBinTime) == [(0.5, b)];
    assert Readings(Hr, b) == [40.0];
    assert UnsortedBins(Hr, root, b) == [Bin(0.5, 40.0, None, 40.0)];
  }
}
