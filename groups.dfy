/**
  Grouping as `d3.groups(values, key)` performs it (plot.js lines 65 and 69):
  one group per distinct key, groups in the order in which their key first
  appears, and each group holding its members in input order.

  `GroupBy` follows the library's single pass (each element joins the group of
  its key, or opens a new group at the end); `Select` and `FirstIndex` are the
  independent reference definitions its contract is stated against.
*/
module Groups {

  /** The elements of `xs` whose key is `k`, in input order. */
  function Select<T, K(==)>(xs: seq<T>, key: T -> K, k: K): (r: seq<T>)
    ensures |r| <= |xs|
    ensures forall j :: 0 <= j < |r| ==> key(r[j]) == k
  {
    if xs == [] then []
    else
      var init, last := xs[..|xs| - 1], xs[|xs| - 1];
      Select(init, key, k) + (if key(last) == k then [last] else [])
  }

  /** `Select` keeps every element whose key is `k`. */
  lemma {:induction false} SelectKeeps<T, K>(xs: seq<T>, key: T -> K, k: K, p: nat)
    requires p < |xs| && key(xs[p]) == k
    ensures xs[p] in Select(xs, key, k)
  {
    var init := xs[..|xs| - 1];
    if p < |xs| - 1 {
      SelectKeeps(init, key, k, p);
      assert init[p] == xs[p];
    }
  }

  /** Everything `Select` returns comes from `xs`. */
  lemma {:induction false} SelectFrom<T, K>(xs: seq<T>, key: T -> K, k: K, y: T)
    requires y in Select(xs, key, k)
    ensures exists p :: 0 <= p < |xs| && xs[p] == y
  {
    var init, last := xs[..|xs| - 1], xs[|xs| - 1];
    if y in Select(init, key, k) {
      SelectFrom(init, key, k, y);
      var p :| 0 <= p < |init| && init[p] == y;
      assert xs[p] == y;
    } else {
      assert xs[|xs| - 1] == y;
    }
  }

  /** An element picked twice, first by `f` and then by `g`, has the key picked first. */
  lemma SelectWithin<T, K, L>(xs: seq<T>, f: T -> K, a: K, g: T -> L, b: L)
    ensures forall j :: 0 <= j < |Select(Select(xs, f, a), g, b)| ==> f(Select(Select(xs, f, a), g, b)[j]) == a
  {
    var inner := Select(xs, f, a);
    var outer := Select(inner, g, b);
    forall j | 0 <= j < |outer| ensures f(outer[j]) == a {
      SelectFrom(inner, g, b, outer[j]);
      var p :| 0 <= p < |inner| && inner[p] == outer[j];
    }
  }

  /** The position of the first element of `xs` whose key is `k`; `|xs|` when there is none. */
  function FirstIndex<T, K(==)>(xs: seq<T>, key: T -> K, k: K): (n: nat)
    ensures n <= |xs|
    ensures n < |xs| ==> key(xs[n]) == k
  {
    if xs == [] then 0
    else if key(xs[0]) == k then 0
    else 1 + FirstIndex(xs[1..], key, k)
  }

  /** No element before `FirstIndex(xs, key, k)` has key `k`. */
  lemma {:induction false} FirstIndexIsFirst<T, K>(xs: seq<T>, key: T -> K, k: K)
    ensures forall q :: 0 <= q < FirstIndex(xs, key, k) ==> key(xs[q]) != k
  {
    if xs != [] && key(xs[0]) != k {
      FirstIndexIsFirst(xs[1..], key, k);
      assert forall q :: 1 <= q < |xs| ==> xs[q] == xs[1..][q - 1];
    }
  }

  /** The position of the group whose key is `k`; `|gs|` when there is none. */
  function IndexOfKey<T, K(==)>(gs: seq<(K, seq<T>)>, k: K): (n: nat)
    ensures n <= |gs|
    ensures n < |gs| ==> gs[n].0 == k
  {
    if gs == [] then 0
    else if gs[0].0 == k then 0
    else 1 + IndexOfKey(gs[1..], k)
  }

  /** No group before `IndexOfKey(gs, k)` has key `k`. */
  lemma {:induction false} IndexOfKeyIsFirst<T, K>(gs: seq<(K, seq<T>)>, k: K)
    ensures forall i :: 0 <= i < IndexOfKey(gs, k) ==> gs[i].0 != k
  {
    if gs != [] && gs[0].0 != k {
      IndexOfKeyIsFirst(gs[1..], k);
      assert forall i :: 1 <= i < |gs| ==> gs[i] == gs[1..][i - 1];
    }
  }

  /** One step of the library's pass: `x` joins the group of `k`, or opens a new group at the end. */
  function AddTo<T, K(==)>(gs: seq<(K, seq<T>)>, k: K, x: T): seq<(K, seq<T>)>
  {
    if IndexOfKey(gs, k) < |gs| then
      seq(|gs|, i requires 0 <= i < |gs| => if gs[i].0 == k then (k, gs[i].1 + [x]) else gs[i])
    else
      gs + [(k, [x])]
  }

  /** No two groups share a key. */
  ghost predicate DistinctKeys<T, K>(r: seq<(K, seq<T>)>)
  {
    forall i, j :: 0 <= i < j < |r| ==> r[i].0 != r[j].0
  }

  /** Each group holds exactly the elements with its key, in input order. */
  ghost predicate MembersSelected<T, K>(xs: seq<T>, key: T -> K, r: seq<(K, seq<T>)>)
  {
    forall i :: 0 <= i < |r| ==> r[i].1 == Select(xs, key, r[i].0)
  }

  /** Each group's key is the key of some element. */
  ghost predicate KeysOccur<T, K>(xs: seq<T>, key: T -> K, r: seq<(K, seq<T>)>)
  {
    forall i :: 0 <= i < |r| ==> FirstIndex(xs, key, r[i].0) < |xs|
  }

  /** Each element's key has a group. */
  ghost predicate Covers<T, K>(xs: seq<T>, key: T -> K, r: seq<(K, seq<T>)>)
  {
    forall p {:trigger IndexOfKey(r, key(xs[p]))} :: 0 <= p < |xs| ==> IndexOfKey(r, key(xs[p])) < |r|
  }

  /** Groups come in the order in which their keys first appear. */
  ghost predicate FirstAppearanceOrder<T, K>(xs: seq<T>, key: T -> K, r: seq<(K, seq<T>)>)
  {
    forall i, j :: 0 <= i < j < |r| ==> FirstIndex(xs, key, r[i].0) < FirstIndex(xs, key, r[j].0)
  }

  /** What `GroupBy(xs, key)` promises, stated against the reference definitions. */
  ghost predicate IsGrouping<T, K>(xs: seq<T>, key: T -> K, r: seq<(K, seq<T>)>)
  {
    && DistinctKeys(r)
    && MembersSelected(xs, key, r)
    && KeysOccur(xs, key, r)
    && Covers(xs, key, r)
    && FirstAppearanceOrder(xs, key, r)
  }

  /** `d3.groups(xs, key)`: one pass over `xs`, each element joining the group of its key. */
  function GroupBy<T, K(==)>(xs: seq<T>, key: T -> K): seq<(K, seq<T>)>
  {
    if xs == [] then []
    else AddTo(GroupBy(xs[..|xs| - 1], key), key(xs[|xs| - 1]), xs[|xs| - 1])
  }

  /**
    What `GroupBy` promises: keys are pairwise distinct, every element's key has
    a group, every group is non-empty and holds exactly the elements with its
    key in input order, and groups are ordered by the first appearance of their key.
  */
  lemma {:induction false} GroupByIsGrouping<T, K>(xs: seq<T>, key: T -> K)
    ensures IsGrouping(xs, key, GroupBy(xs, key))
    ensures forall i :: 0 <= i < |GroupBy(xs, key)| ==> |GroupBy(xs, key)[i].1| > 0
  {
    if xs != [] {
      var init, last := xs[..|xs| - 1], xs[|xs| - 1];
      GroupByIsGrouping(init, key);
      assert xs == init + [last];
      AddToKeepsGrouping(init, last, key, GroupBy(init, key));
    }
  }

  /** Appending an element whose key already occurred leaves that key's first position alone. */
  lemma FirstIndexAppend<T, K>(init: seq<T>, last: T, key: T -> K, k: K)
    requires FirstIndex(init, key, k) < |init|
    ensures FirstIndex(init + [last], key, k) == FirstIndex(init, key, k)
  {
    var xs := init + [last];
    FirstIndexIsFirst(init, key, k);
    FirstIndexIsFirst(xs, key, k);
    assert forall q :: 0 <= q < |init| ==> xs[q] == init[q];
  }

  /** The induction step of `GroupBy`: one `AddTo` extends a grouping of `init` to one of `init + [last]`. */
  lemma AddToKeepsGrouping<T, K>(init: seq<T>, last: T, key: T -> K, prev: seq<(K, seq<T>)>)
    requires IsGrouping(init, key, prev)
    requires forall i :: 0 <= i < |prev| ==> |prev[i].1| > 0
    ensures var r, xs := AddTo(prev, key(last), last), init + [last];
      && IsGrouping(xs, key, r)
      && forall i :: 0 <= i < |r| ==> |r[i].1| > 0
  {
    var xs, k := init + [last], key(last);
    assert xs[..|xs| - 1] == init;
    forall i | 0 <= i < |prev|
      ensures FirstIndex(xs, key, prev[i].0) == FirstIndex(init, key, prev[i].0)
    {
      FirstIndexAppend(init, last, key, prev[i].0);
    }
    if IndexOfKey(prev, k) < |prev| {
      AddToExisting(init, last, key, prev);
    } else {
      AddToNew(init, last, key, prev);
    }
  }

  /** Two groupings list the same keys in the same order. */
  ghost predicate SameKeys<T, K>(a: seq<(K, seq<T>)>, b: seq<(K, seq<T>)>)
  {
    |a| == |b| && forall i :: 0 <= i < |a| ==> a[i].0 == b[i].0
  }

  lemma AddToExisting<T, K>(init: seq<T>, last: T, key: T -> K, prev: seq<(K, seq<T>)>)
    requires IsGrouping(init, key, prev)
    requires forall i :: 0 <= i < |prev| ==> |prev[i].1| > 0
    requires IndexOfKey(prev, key(last)) < |prev|
    requires forall i :: 0 <= i < |prev| ==>
      FirstIndex(init + [last], key, prev[i].0) == FirstIndex(init, key, prev[i].0)
    ensures var r, xs := AddTo(prev, key(last), last), init + [last];
      && IsGrouping(xs, key, r)
      && forall i :: 0 <= i < |r| ==> |r[i].1| > 0
  {
    var xs, r := init + [last], AddTo(prev, key(last), last);
    assert SameKeys(r, prev);
    ExistingMembers(init, last, key, prev);
    SameKeysTransfer(init, last, key, prev, r);
  }

  /** The members of the grown grouping, when `last` joins an existing group. */
  lemma ExistingMembers<T, K>(init: seq<T>, last: T, key: T -> K, prev: seq<(K, seq<T>)>)
    requires MembersSelected(init, key, prev)
    requires IndexOfKey(prev, key(last)) < |prev|
    ensures MembersSelected(init + [last], key, AddTo(prev, key(last), last))
  {
    var xs, r := init + [last], AddTo(prev, key(last), last);
    assert xs[..|xs| - 1] == init;
    forall i | 0 <= i < |r|
      ensures r[i].1 == Select(xs, key, r[i].0)
    {
      assert prev[i].1 == Select(init, key, prev[i].0);
    }
  }

  /** Key-only properties carry over to a grouping with the same keys whose first positions did not move. */
  lemma SameKeysTransfer<T, K>(init: seq<T>, last: T, key: T -> K, prev: seq<(K, seq<T>)>, r: seq<(K, seq<T>)>)
    requires IsGrouping(init, key, prev) && SameKeys(r, prev) && MembersSelected(init + [last], key, r)
    requires IndexOfKey(prev, key(last)) < |prev|
    requires forall i :: 0 <= i < |prev| ==> FirstIndex(init + [last], key, prev[i].0) == FirstIndex(init, key, prev[i].0)
    requires forall i :: 0 <= i < |prev| ==> |prev[i].1| > 0
    ensures IsGrouping(init + [last], key, r) && forall i :: 0 <= i < |r| ==> |r[i].1| > 0
  {
    SameKeysOrder(init, init + [last], key, prev, r);
    SameKeysCover(init, last, key, prev, r);
    forall i | 0 <= i < |r| ensures |r[i].1| > 0 {
      assert KeysOccur(init, key, prev);
      NonEmptyGrows(init, last, key, prev[i].0);
    }
  }

  lemma SameKeysOrder<T, K>(init: seq<T>, xs: seq<T>, key: T -> K, prev: seq<(K, seq<T>)>, r: seq<(K, seq<T>)>)
    requires DistinctKeys(prev) && KeysOccur(init, key, prev) && FirstAppearanceOrder(init, key, prev)
    requires SameKeys(r, prev) && |init| < |xs|
    requires forall i :: 0 <= i < |prev| ==> FirstIndex(xs, key, prev[i].0) == FirstIndex(init, key, prev[i].0)
    ensures DistinctKeys(r) && KeysOccur(xs, key, r) && FirstAppearanceOrder(xs, key, r)
  {
  }

  lemma SameKeysCover<T, K>(init: seq<T>, last: T, key: T -> K, prev: seq<(K, seq<T>)>, r: seq<(K, seq<T>)>)
    requires Covers(init, key, prev) && SameKeys(r, prev)
    requires IndexOfKey(prev, key(last)) < |prev|
    ensures Covers(init + [last], key, r)
  {
    var xs := init + [last];
    forall p | 0 <= p < |xs| ensures IndexOfKey(r, key(xs[p])) < |r| {
      IndexOfKeySameKeys(r, prev, key(xs[p]));
      CoveredBefore(init, last, key, prev, p);
    }
  }

  /** Every element of the grown sequence has its key among the old groups. */
  lemma CoveredBefore<T, K>(init: seq<T>, last: T, key: T -> K, prev: seq<(K, seq<T>)>, p: nat)
    requires Covers(init, key, prev)
    requires IndexOfKey(prev, key(last)) < |prev| && p <= |init|
    ensures IndexOfKey(prev, key((init + [last])[p])) < |prev|
  {
    if p < |init| {
      assert (init + [last])[p] == init[p];
      assert IndexOfKey(prev, key(init[p])) < |prev|;
    }
  }

  /** A key selected from a prefix is still selected once the sequence grows. */
  lemma NonEmptyGrows<T, K>(init: seq<T>, last: T, key: T -> K, k: K)
    requires FirstIndex(init, key, k) < |init|
    ensures |Select(init + [last], key, k)| > 0
  {
    var p := FirstIndex(init, key, k);
    assert (init + [last])[p] == init[p];
    SelectKeeps(init + [last], key, k, p);
  }

  lemma AddToNew<T, K>(init: seq<T>, last: T, key: T -> K, prev: seq<(K, seq<T>)>)
    requires IsGrouping(init, key, prev)
    requires forall i :: 0 <= i < |prev| ==> |prev[i].1| > 0
    requires IndexOfKey(prev, key(last)) == |prev|
    requires forall i :: 0 <= i < |prev| ==>
      FirstIndex(init + [last], key, prev[i].0) == FirstIndex(init, key, prev[i].0)
    ensures var r, xs := AddTo(prev, key(last), last), init + [last];
      && IsGrouping(xs, key, r)
      && forall i :: 0 <= i < |r| ==> |r[i].1| > 0
  {
    var xs, k, r := init + [last], key(last), AddTo(prev, key(last), last);
    assert r == prev + [(k, [last])];
    NewKeyAbsent(init, last, key, prev);
    NewMembers(init, last, key, prev);
    NewKeyDistinct(prev, k, last);
    NewKeyOrder(init, last, key, prev);
    NewCovers(init, last, key, prev);
    forall i | 0 <= i < |prev| ensures |Select(xs, key, prev[i].0)| > 0 {
      assert KeysOccur(init, key, prev);
      NonEmptyGrows(init, last, key, prev[i].0);
    }
  }

  /** The new group's key differs from every existing one. */
  lemma NewKeyDistinct<T, K>(prev: seq<(K, seq<T>)>, k: K, last: T)
    requires DistinctKeys(prev) && IndexOfKey(prev, k) == |prev|
    ensures DistinctKeys(AddTo(prev, k, last))
  {
    var r := AddTo(prev, k, last);
    assert r == prev + [(k, [last])];
    IndexOfKeyIsFirst(prev, k);
  }

  /** The new group's key first appears after the keys of all existing groups. */
  lemma NewKeyOrder<T, K>(init: seq<T>, last: T, key: T -> K, prev: seq<(K, seq<T>)>)
    requires KeysOccur(init, key, prev) && FirstAppearanceOrder(init, key, prev)
    requires FirstIndex(init + [last], key, key(last)) == |init|
    requires forall i :: 0 <= i < |prev| ==>
      FirstIndex(init + [last], key, prev[i].0) == FirstIndex(init, key, prev[i].0)
    ensures var r, xs := prev + [(key(last), [last])], init + [last];
      KeysOccur(xs, key, r) && FirstAppearanceOrder(xs, key, r)
  {
    var xs := init + [last];
    OldKeysEarlier(init, last, key, prev);
    OrderTransfers(init, xs, key, prev);
    OrderAppend(xs, key, prev, (key(last), [last]));
  }

  /** First positions that did not move keep their order. */
  lemma OrderTransfers<T, K>(init: seq<T>, xs: seq<T>, key: T -> K, prev: seq<(K, seq<T>)>)
    requires FirstAppearanceOrder(init, key, prev)
    requires forall i :: 0 <= i < |prev| ==> FirstIndex(xs, key, prev[i].0) == FirstIndex(init, key, prev[i].0)
    ensures FirstAppearanceOrder(xs, key, prev)
  {
  }

  /** A group whose key first appears after all others, and within `xs`, can go last. */
  lemma OrderAppend<T, K>(xs: seq<T>, key: T -> K, prev: seq<(K, seq<T>)>, g: (K, seq<T>))
    requires FirstAppearanceOrder(xs, key, prev)
    requires forall i :: 0 <= i < |prev| ==> FirstIndex(xs, key, prev[i].0) < FirstIndex(xs, key, g.0)
    requires FirstIndex(xs, key, g.0) < |xs|
    ensures KeysOccur(xs, key, prev + [g]) && FirstAppearanceOrder(xs, key, prev + [g])
  {
    var r := prev + [g];
    forall i | 0 <= i < |r| ensures FirstIndex(xs, key, r[i].0) <= FirstIndex(xs, key, g.0) {
      if i < |prev| {
        assert r[i] == prev[i];
      }
    }
    forall i, j | 0 <= i < j < |r| ensures FirstIndex(xs, key, r[i].0) < FirstIndex(xs, key, r[j].0) {
      assert r[i] == prev[i];
      if j < |prev| {
        assert r[j] == prev[j];
      }
    }
  }

  /** The keys of the existing groups first appear within `init`. */
  lemma OldKeysEarlier<T, K>(init: seq<T>, last: T, key: T -> K, prev: seq<(K, seq<T>)>)
    requires KeysOccur(init, key, prev)
    requires forall i :: 0 <= i < |prev| ==>
      FirstIndex(init + [last], key, prev[i].0) == FirstIndex(init, key, prev[i].0)
    ensures forall i :: 0 <= i < |prev| ==> FirstIndex(init + [last], key, prev[i].0) < |init|
  {
    forall i | 0 <= i < |prev| ensures FirstIndex(init + [last], key, prev[i].0) < |init| {
      assert FirstIndex(init, key, prev[i].0) < |init|;
    }
  }

  /** A key that has no group yet occurs nowhere before `last`. */
  lemma NewKeyAbsent<T, K>(init: seq<T>, last: T, key: T -> K, prev: seq<(K, seq<T>)>)
    requires Covers(init, key, prev)
    requires IndexOfKey(prev, key(last)) == |prev|
    ensures FirstIndex(init + [last], key, key(last)) == |init|
    ensures Select(init, key, key(last)) == []
  {
    var xs, k := init + [last], key(last);
    forall q | 0 <= q < |init| ensures key(xs[q]) != k {
      assert xs[q] == init[q];
      assert IndexOfKey(prev, key(init[q])) < |prev|;
    }
    assert key(xs[|init|]) == k;
    FirstIndexIsFirst(xs, key, k);
    var s := Select(init, key, k);
    if s != [] {
      SelectFrom(init, key, k, s[0]);
    }
  }

  /** The members of the grown grouping, when `last` opens a new group. */
  lemma NewMembers<T, K>(init: seq<T>, last: T, key: T -> K, prev: seq<(K, seq<T>)>)
    requires MembersSelected(init, key, prev)
    requires IndexOfKey(prev, key(last)) == |prev|
    requires Select(init, key, key(last)) == []
    ensures MembersSelected(init + [last], key, AddTo(prev, key(last), last))
  {
    var xs, k, r := init + [last], key(last), AddTo(prev, key(last), last);
    assert xs[..|xs| - 1] == init;
    assert r == prev + [(k, [last])];
    IndexOfKeyIsFirst(prev, k);
    forall i | 0 <= i < |r|
      ensures r[i].1 == Select(xs, key, r[i].0)
    {
      if i < |prev| {
        assert prev[i].1 == Select(init, key, prev[i].0);
        assert prev[i].0 != k;
      }
    }
  }

  /** Every key still has a group once `last` opens a new one. */
  lemma NewCovers<T, K>(init: seq<T>, last: T, key: T -> K, prev: seq<(K, seq<T>)>)
    requires Covers(init, key, prev)
    requires IndexOfKey(prev, key(last)) == |prev|
    ensures Covers(init + [last], key, AddTo(prev, key(last), last))
  {
    var xs, k, r := init + [last], key(last), AddTo(prev, key(last), last);
    assert r == prev + [(k, [last])];
    forall p | 0 <= p < |xs| ensures IndexOfKey(r, key(xs[p])) < |r| {
      IndexOfKeyAppend(prev, (k, [last]), key(xs[p]));
      if p < |init| {
        assert xs[p] == init[p];
      }
    }
  }

  /** Groupings with the same keys in the same order look keys up alike. */
  lemma {:induction false} IndexOfKeySameKeys<T, K>(a: seq<(K, seq<T>)>, b: seq<(K, seq<T>)>, k: K)
    requires SameKeys(a, b)
    ensures IndexOfKey(a, k) == IndexOfKey(b, k)
  {
    if a != [] && a[0].0 != k {
      IndexOfKeySameKeys(a[1..], b[1..], k);
    }
  }

  /** Appending a group does not move the groups already there. */
  lemma {:induction false} IndexOfKeyAppend<T, K>(gs: seq<(K, seq<T>)>, g: (K, seq<T>), k: K)
    ensures IndexOfKey(gs + [g], k) ==
      if IndexOfKey(gs, k) < |gs| then IndexOfKey(gs, k) else if g.0 == k then |gs| else |gs| + 1
  {
    if gs != [] {
      assert (gs + [g])[1..] == gs[1..] + [g];
      if gs[0].0 != k {
        IndexOfKeyAppend(gs[1..], g, k);
      }
    }
  }

  /** Every element belongs to exactly one group of `GroupBy(xs, key)`. */
  lemma GroupByPartition<T, K>(xs: seq<T>, key: T -> K, x: T)
    requires x in xs
    ensures exists i :: 0 <= i < |GroupBy(xs, key)| && x in GroupBy(xs, key)[i].1
    ensures forall i, j ::
              (0 <= i < |GroupBy(xs, key)| && 0 <= j < |GroupBy(xs, key)| &&
               x in GroupBy(xs, key)[i].1 && x in GroupBy(xs, key)[j].1) ==> i == j
  {
    var r := GroupBy(xs, key);
    GroupByIsGrouping(xs, key);
    var p :| 0 <= p < |xs| && xs[p] == x;
    assert Covers(xs, key, r);
    var i := IndexOfKey(r, key(xs[p]));
    assert MembersSelected(xs, key, r);
    assert r[i].1 == Select(xs, key, key(x));
    SelectKeeps(xs, key, key(x), p);
    assert 0 <= i < |r| && x in r[i].1;
    assert DistinctKeys(r);
    forall j | 0 <= j < |r| && x in r[j].1 ensures r[j].0 == key(x) {
      assert r[j].1 == Select(xs, key, r[j].0);
    }
  }
}
