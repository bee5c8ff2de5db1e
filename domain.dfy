/**
  The y-axis domain set at plot.js lines 84-87: from the least `mean - sd` to
  the greatest `mean + sd` over every bin of every visible series, a missing
  deviation counting as 0; absent when no visible series has a bin.
*/
module Domain {
  import opened Wrappers
  import opened Stats
  import opened Table

  datatype Interval = Interval(lower: real, upper: real)

  /** `d.sd || 0`. */
  function SdOrZero(b: Bin): real
  {
    match b.sd
    case Some(s) => s
    case None => 0.0
  }

  /** The bottom of a bin's band, `d.mean - (d.sd || 0)`. */
  function BandLow(b: Bin): real
  {
    b.mean - SdOrZero(b)
  }

  /** The top of a bin's band, `d.mean + (d.sd || 0)`. */
  function BandHigh(b: Bin): real
  {
    b.mean + SdOrZero(b)
  }

  /** The band bottoms of a series' bins, as the inner `d3.min` sees them. */
  function BandLows(s: Series): seq<Option<real>>
  {
    seq(|s.values|, j requires 0 <= j < |s.values| => Some(BandLow(s.values[j])))
  }

  /** The band tops of a series' bins, as the inner `d3.max` sees them. */
  function BandHighs(s: Series): seq<Option<real>>
  {
    seq(|s.values|, j requires 0 <= j < |s.values| => Some(BandHigh(s.values[j])))
  }

  /** The inner `d3.min` of plot.js line 85: the lowest band bottom of one series. */
  function SeriesLow(s: Series): Option<real>
  {
    MinDefined(BandLows(s))
  }

  /** The inner `d3.max` of plot.js line 86: the highest band top of one series. */
  function SeriesHigh(s: Series): Option<real>
  {
    MaxDefined(BandHighs(s))
  }

  /** The per-series values the outer `d3.min` reduces. */
  function SeriesLows(visible: seq<Series>): seq<Option<real>>
  {
    seq(|visible|, i requires 0 <= i < |visible| => SeriesLow(visible[i]))
  }

  /** The per-series values the outer `d3.max` reduces. */
  function SeriesHighs(visible: seq<Series>): seq<Option<real>>
  {
    seq(|visible|, i requires 0 <= i < |visible| => SeriesHigh(visible[i]))
  }

  /**
    The domain handed to `y.domain` at plot.js lines 84-87: absent exactly when
    no visible series has a bin; otherwise its lower end is at most every bin's
    band bottom and equal to one of them, and its upper end at least every
    bin's band top and equal to one of them.
  */
  function YDomain(visible: seq<Series>): (d: Option<Interval>)
    ensures d.None? <==> forall i :: 0 <= i < |visible| ==> |visible[i].values| == 0
    ensures d.Some? ==> forall i, j :: 0 <= i < |visible| && 0 <= j < |visible[i].values| ==>
      d.value.lower <= BandLow(visible[i].values[j]) && BandHigh(visible[i].values[j]) <= d.value.upper
    ensures d.Some? ==> exists i, j ::
      && 0 <= i < |visible| && 0 <= j < |visible[i].values|
      && d.value.lower == BandLow(visible[i].values[j])
    ensures d.Some? ==> exists i, j ::
      && 0 <= i < |visible| && 0 <= j < |visible[i].values|
      && d.value.upper == BandHigh(visible[i].values[j])
  {
    var lower, upper := MinDefined(SeriesLows(visible)), MaxDefined(SeriesHighs(visible));
    LowerEnd(visible);
    UpperEnd(visible);
    if lower.Some? && upper.Some? then
      Some(Interval(lower.value, upper.value))
    else
      None
  }

  /** The lowest band bottom of a series: absent exactly for a series without bins, else attained and a lower bound. */
  lemma SeriesLowIsLeast(s: Series)
    ensures SeriesLow(s).None? <==> |s.values| == 0
    ensures SeriesLow(s).Some? ==>
      && (forall j :: 0 <= j < |s.values| ==> SeriesLow(s).value <= BandLow(s.values[j]))
      && (exists j :: 0 <= j < |s.values| && SeriesLow(s).value == BandLow(s.values[j]))
  {
    var lows := BandLows(s);
    if |s.values| > 0 {
      assert lows[0].Some?;
      forall j | 0 <= j < |s.values| ensures SeriesLow(s).value <= BandLow(s.values[j]) {
        assert lows[j] == Some(BandLow(s.values[j]));
      }
    }
  }

  /** The highest band top of a series: absent exactly for a series without bins, else attained and an upper bound. */
  lemma SeriesHighIsGreatest(s: Series)
    ensures SeriesHigh(s).None? <==> |s.values| == 0
    ensures SeriesHigh(s).Some? ==>
      && (forall j :: 0 <= j < |s.values| ==> BandHigh(s.values[j]) <= SeriesHigh(s).value)
      && (exists j :: 0 <= j < |s.values| && SeriesHigh(s).value == BandHigh(s.values[j]))
  {
    var highs := BandHighs(s);
    if |s.values| > 0 {
      assert highs[0].Some?;
      forall j | 0 <= j < |s.values| ensures BandHigh(s.values[j]) <= SeriesHigh(s).value {
        assert highs[j] == Some(BandHigh(s.values[j]));
      }
    }
  }

  /** The outer `d3.min` over all visible series. */
  lemma LowerEnd(visible: seq<Series>)
    ensures MinDefined(SeriesLows(visible)).None? <==> forall i :: 0 <= i < |visible| ==> |visible[i].values| == 0
    ensures var lower := MinDefined(SeriesLows(visible));
      lower.Some? ==>
        && (forall i, j :: 0 <= i < |visible| && 0 <= j < |visible[i].values| ==>
              lower.value <= BandLow(visible[i].values[j]))
        && (exists i, j ::
              && 0 <= i < |visible| && 0 <= j < |visible[i].values|
              && lower.value == BandLow(visible[i].values[j]))
  {
    var lows, lower := SeriesLows(visible), MinDefined(SeriesLows(visible));
    forall i | 0 <= i < |visible| ensures lows[i].None? <==> |visible[i].values| == 0 {
      SeriesLowIsLeast(visible[i]);
    }
    if lower.Some? {
      forall i, j | 0 <= i < |visible| && 0 <= j < |visible[i].values|
        ensures lower.value <= BandLow(visible[i].values[j])
      {
        SeriesLowIsLeast(visible[i]);
        assert lower.value <= lows[i].value;
      }
      var i :| 0 <= i < |lows| && lows[i] == lower;
      SeriesLowIsLeast(visible[i]);
      var j :| 0 <= j < |visible[i].values| && SeriesLow(visible[i]).value == BandLow(visible[i].values[j]);
    }
  }

  /** The outer `d3.max` over all visible series. */
  lemma UpperEnd(visible: seq<Series>)
    ensures MaxDefined(SeriesHighs(visible)).None? <==> forall i :: 0 <= i < |visible| ==> |visible[i].values| == 0
    ensures var upper := MaxDefined(SeriesHighs(visible));
      upper.Some? ==>
        && (forall i, j :: 0 <= i < |visible| && 0 <= j < |visible[i].values| ==>
              BandHigh(visible[i].values[j]) <= upper.value)
        && (exists i, j ::
              && 0 <= i < |visible| && 0 <= j < |visible[i].values|
              && upper.value == BandHigh(visible[i].values[j]))
  {
    var highs, upper := SeriesHighs(visible), MaxDefined(SeriesHighs(visible));
    forall i | 0 <= i < |visible| ensures highs[i].None? <==> |visible[i].values| == 0 {
      SeriesHighIsGreatest(visible[i]);
    }
    if upper.Some? {
      forall i, j | 0 <= i < |visible| && 0 <= j < |visible[i].values|
        ensures BandHigh(visible[i].values[j]) <= upper.value
      {
        SeriesHighIsGreatest(visible[i]);
        assert highs[i].value <= upper.value;
      }
      var i :| 0 <= i < |highs| && highs[i] == upper;
      SeriesHighIsGreatest(visible[i]);
      var j :| 0 <= j < |visible[i].values| && SeriesHigh(visible[i]).value == BandHigh(visible[i].values[j]);
    }
  }

  /** When every present deviation is non-negative, the domain is a non-empty interval. */
  lemma DomainOrdered(visible: seq<Series>)
    requires forall i, j :: 0 <= i < |visible| && 0 <= j < |visible[i].values| ==>
      (visible[i].values[j].sd.Some? ==> visible[i].values[j].sd.value >= 0.0)
    ensures YDomain(visible).Some? ==> YDomain(visible).value.lower <= YDomain(visible).value.upper
  {
    var d := YDomain(visible);
    if d.Some? {
      var i, j :| 0 <= i < |visible| && 0 <= j < |visible[i].values| &&
        d.value.lower == BandLow(visible[i].values[j]);
      assert SdOrZero(visible[i].values[j]) >= 0.0;
    }
  }

  /** When every visible series has a bin, the domain is absent exactly when nothing is visible. */
  lemma DomainAbsentIffNothingVisible(visible: seq<Series>)
    requires forall i :: 0 <= i < |visible| ==> |visible[i].values| > 0
    ensures YDomain(visible).None? <==> |visible| == 0
  {
    if |visible| > 0 {
      assert |visible[0].values| > 0;
    }
  }
}
