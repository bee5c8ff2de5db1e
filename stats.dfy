/**
  The reducers the chart applies to a bin's readings and to the bands of the
  visible bins: `d3.mean`, `d3.deviation` (plot.js lines 74-75), `d3.min` and
  `d3.max` (plot.js lines 85-86), over exact reals.
*/
module Stats {
  import opened Wrappers

  function Sum(v: seq<real>): real
  {
    if v == [] then 0.0 else Sum(v[..|v| - 1]) + v[|v| - 1]
  }

  /** `d3.mean`: the arithmetic mean, absent for no values. */
  function Mean(v: seq<real>): (m: Option<real>)
    ensures m.None? <==> |v| == 0
    ensures m.Some? ==> m.value * (|v| as real) == Sum(v)
  {
    if |v| == 0 then None else Some(Sum(v) / (|v| as real))
  }

  /** Bounds on every value bound the sum. */
  lemma {:induction false} SumBounds(v: seq<real>, lo: real, hi: real)
    requires forall i :: 0 <= i < |v| ==> lo <= v[i] <= hi
    ensures lo * (|v| as real) <= Sum(v) <= hi * (|v| as real)
  {
    if v != [] {
      SumBounds(v[..|v| - 1], lo, hi);
    }
  }

  /** The mean of values that all lie in `[lo, hi]` lies in `[lo, hi]`. */
  lemma MeanWithin(v: seq<real>, lo: real, hi: real)
    requires |v| > 0
    requires forall i :: 0 <= i < |v| ==> lo <= v[i] <= hi
    ensures lo <= Mean(v).value <= hi
  {
    SumBounds(v, lo, hi);
  }

  /** The sum of squared distances of the values from `m`. */
  function SquaredDeviations(v: seq<real>, m: real): (r: real)
    ensures r >= 0.0
  {
    if v == [] then 0.0
    else
      var d := v[|v| - 1] - m;
      SquaredDeviations(v[..|v| - 1], m) + d * d
  }

  /** `d3.variance`: the unbiased sample variance, absent for fewer than two values. */
  function Variance(v: seq<real>): (r: Option<real>)
    ensures r.None? <==> |v| < 2
    ensures r.Some? ==> r.value >= 0.0
    ensures r.Some? ==> r.value * ((|v| - 1) as real) == SquaredDeviations(v, Mean(v).value)
  {
    if |v| < 2 then None
    else Some(SquaredDeviations(v, Mean(v).value) / ((|v| - 1) as real))
  }

  /**
    `d3.deviation`: the square root of the variance, absent for fewer than two
    values. The square root is the parameter `root`.
  */
  function Deviation(v: seq<real>, root: real -> real): (r: Option<real>)
    ensures r.None? <==> |v| < 2
    ensures r.Some? ==> r.value == root(Variance(v).value)
  {
    match Variance(v)
    case None => None
    case Some(x) => Some(root(x))
  }

  /** With a square root that is non-negative on non-negative input, a present deviation is non-negative. */
  lemma DeviationNonNegative(v: seq<real>, root: real -> real)
    requires forall x :: 0.0 <= x ==> 0.0 <= root(x)
    ensures Deviation(v, root).Some? ==> Deviation(v, root).value >= 0.0
  {
    if |v| >= 2 {
      assert Variance(v).value >= 0.0;
    }
  }

  /** Values that all equal `c` have mean `c` and, when there are two or more, variance 0. */
  lemma {:induction false} ConstantSpread(v: seq<real>, c: real)
    requires |v| > 0
    requires forall i :: 0 <= i < |v| ==> v[i] == c
    ensures Mean(v) == Some(c)
    ensures |v| >= 2 ==> Variance(v) == Some(0.0)
  {
    MeanWithin(v, c, c);
    SquaredDeviationsZero(v, c);
  }

  lemma {:induction false} SquaredDeviationsZero(v: seq<real>, c: real)
    requires forall i :: 0 <= i < |v| ==> v[i] == c
    ensures SquaredDeviations(v, c) == 0.0
  {
    if v != [] {
      SquaredDeviationsZero(v[..|v| - 1], c);
    }
  }

  /**
    `d3.min`: the least defined value, skipping undefined ones; absent when no
    value is defined. On a tie the earlier value is kept.
  */
  function MinDefined(xs: seq<Option<real>>): (r: Option<real>)
    ensures r.None? <==> forall i :: 0 <= i < |xs| ==> xs[i].None?
    ensures r.Some? ==> exists i :: 0 <= i < |xs| && xs[i] == r
    ensures r.Some? ==> forall i :: 0 <= i < |xs| && xs[i].Some? ==> r.value <= xs[i].value
  {
    if xs == [] then None
    else
      var rest, x := MinDefined(xs[..|xs| - 1]), xs[|xs| - 1];
      match x
      case None => rest
      case Some(a) => if rest.None? || a < rest.value then x else rest
  }

  /** `d3.max`: the greatest defined value, skipping undefined ones; absent when no value is defined. */
  function MaxDefined(xs: seq<Option<real>>): (r: Option<real>)
    ensures r.None? <==> forall i :: 0 <= i < |xs| ==> xs[i].None?
    ensures r.Some? ==> exists i :: 0 <= i < |xs| && xs[i] == r
    ensures r.Some? ==> forall i :: 0 <= i < |xs| && xs[i].Some? ==> xs[i].value <= r.value
  {
    if xs == [] then None
    else
      var rest, x := MaxDefined(xs[..|xs| - 1]), xs[|xs| - 1];
      match x
      case None => rest
      case Some(a) => if rest.None? || rest.value < a then x else rest
  }
}
