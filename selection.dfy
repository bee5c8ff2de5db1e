/**
  Which series are drawn (plot.js lines 59 and 82): the set of active group
  keys, where the empty set means that every group is shown.
*/
module Selection {
  import opened Table

  /** `activeGroups.size === 0 || activeGroups.has(key)`. */
  predicate IsVisible(active: set<string>, key: string)
  {
    |active| == 0 || key in active
  }

  /** `a` is `b` with some elements left out and the rest kept in order. */
  ghost predicate IsSubsequence<T>(a: seq<T>, b: seq<T>)
  {
    if a == [] then true
    else if b == [] then false
    else (a[0] == b[0] && IsSubsequence(a[1..], b[1..])) || IsSubsequence(a, b[1..])
  }

  /**
    `summary.filter(...)` at plot.js line 82: with no active keys, the whole
    summary; otherwise exactly the series whose key is active, in their original
    order.
  */
  function VisibleSeries(summary: seq<Series>, active: set<string>): (r: seq<Series>)
    ensures |active| == 0 ==> r == summary
    ensures forall s :: s in r <==> s in summary && IsVisible(active, s.key)
    ensures IsSubsequence(r, summary)
    ensures forall s :: multiset(r)[s] == if IsVisible(active, s.key) then multiset(summary)[s] else 0
  {
    if summary == [] then []
    else
      var rest := VisibleSeries(summary[1..], active);
      assert summary == [summary[0]] + summary[1..];
      assert multiset(summary) == multiset{summary[0]} + multiset(summary[1..]);
      if IsVisible(active, summary[0].key) then
        assert ([summary[0]] + rest)[1..] == rest;
        [summary[0]] + rest
      else
        rest
  }
}
