/**
  The records the chart works on: a loaded row of the vitals table, the two
  selectors' choices, and the bins and series that `updateChart` builds
  (plot.js lines 42-43 and 65-80).
*/
module Table {
  import opened Wrappers

  /** The vital columns the vital selector offers: "map", "hr" and "spo2". */
  datatype Vital = Map | Hr | Spo2

  /** The categorical columns the group selector offers: "optype" and "emop". */
  datatype GroupColumn = OpType | EmOp

  /** One row of the loaded table: its two categorical columns, its normalised time and its three vital readings. */
  datatype Row = Row(
    optype: string,
    emop: string,
    normTime: real,
    mapReading: real,
    hrReading: real,
    spo2Reading: real)

  /** `d[selectedGroup]`: the row's value in the selected categorical column. */
  function GroupValue(column: GroupColumn, r: Row): string
  {
    match column
    case OpType => r.optype
    case EmOp => r.emop
  }

  /** The grouping key function handed to `d3.groups` at plot.js line 65. */
  function GroupKey(column: GroupColumn): Row -> string
  {
    r => GroupValue(column, r)
  }

  /** `p[selectedVital]`: the row's reading in the selected vital column. */
  function Reading(vital: Vital, r: Row): real
  {
    match vital
    case Map => r.mapReading
    case Hr => r.hrReading
    case Spo2 => r.spo2Reading
  }

  /** The width of a time bin. */
  const BinSize: real := 0.01

  /** A bin time: a whole multiple of `BinSize`. */
  predicate IsBinTime(t: real)
  {
    (t / BinSize).Floor as real == t / BinSize
  }

  /**
    `Math.round(t / binSize) * binSize`: the multiple of `BinSize` nearest to
    `t`, a time exactly half-way between two multiples going to the upper one.
  */
  function BinTime(t: real): (b: real)
    ensures IsBinTime(b)
    ensures b - BinSize / 2.0 <= t < b + BinSize / 2.0
  {
    (t / BinSize + 0.5).Floor as real * BinSize
  }

  /** The binning key function handed to `d3.groups` at plot.js line 69. */
  function RowBinTime(r: Row): real
  {
    BinTime(r.normTime)
  }

  /** A bin time is its own bin. */
  lemma BinTimeFixed(t: real)
    requires IsBinTime(t)
    ensures BinTime(t) == t
  {
    var k := (t / BinSize).Floor;
    assert t / BinSize + 0.5 == k as real + 0.5;
    assert (t / BinSize + 0.5).Floor == k;
  }

  /** Binning is idempotent. */
  lemma BinTimeIdempotent(t: real)
    ensures BinTime(BinTime(t)) == BinTime(t)
  {
    BinTimeFixed(BinTime(t));
  }

  /** One point of a series: its bin time, the mean and deviation of the bin's readings, and its first reading. */
  datatype Bin = Bin(normTime: real, mean: real, sd: Option<real>, value: real)

  /** One line of the chart: a group key and its bins. */
  datatype Series = Series(key: string, values: seq<Bin>)
}
