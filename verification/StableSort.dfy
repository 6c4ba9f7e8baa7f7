/** Stable argsort, the one library routine that the rank formula, the chronological split and the median rely on. */
module StableSort {

  /** `order` lists every index of `v` exactly once, by value and, for equal values, by position. */
  ghost predicate IsStableOrder(v: seq<real>, order: seq<nat>) {
    && |order| == |v|
    && (forall p | 0 <= p < |order| :: order[p] < |v|)
    && (forall k | 0 <= k < |v| :: k in order)
    && Ascends(v, order)
  }

  ghost predicate Ascends(v: seq<real>, order: seq<nat>) {
    forall p, q | 0 <= p < q < |order| :: Before(v, order[p], order[q])
  }

  ghost predicate Before(v: seq<real>, a: int, b: int) {
    0 <= a < |v| && 0 <= b < |v| && (v[a] < v[b] || (v[a] == v[b] && a < b))
  }

  function Gather<T>(v: seq<T>, order: seq<nat>): (s: seq<T>)
    requires forall p | 0 <= p < |order| :: order[p] < |v|
    ensures |s| == |order|
    ensures forall p | 0 <= p < |order| :: s[p] == v[order[p]]
  {
    if order == [] then [] else Gather(v, order[..|order| - 1]) + [v[order[|order| - 1]]]
  }

  /** Insert index `k`, larger than every index in `order`, after the last value that is not above `v[k]`. */
  function InsertIndex(v: seq<real>, order: seq<nat>, k: nat): (r: seq<nat>)
    requires k < |v|
    requires forall p | 0 <= p < |order| :: order[p] < k
    ensures |r| == |order| + 1
    ensures forall p | 0 <= p < |r| :: r[p] <= k
  {
    var n := |order|;
    if n == 0 || v[order[n - 1]] <= v[k] then order + [k]
    else InsertIndex(v, order[..n - 1], k) + [order[n - 1]]
  }

  function ArgSortPrefix(v: seq<real>, n: nat): (r: seq<nat>)
    requires n <= |v|
    ensures |r| == n
    ensures forall p | 0 <= p < n :: r[p] < n
  {
    if n == 0 then [] else InsertIndex(v, ArgSortPrefix(v, n - 1), n - 1)
  }

  function ArgSort(v: seq<real>): (r: seq<nat>)
    ensures IsStableOrder(v, r)
  {
    ArgSortPrefixOrdered(v, |v|);
    AllInArgSortPrefix(v);
    ArgSortPrefix(v, |v|)
  }

  function Sorted(v: seq<real>): seq<real> {
    Gather(v, ArgSort(v))
  }

  lemma SortedMember(v: seq<real>, p: nat)
    requires p < |v|
    ensures |Sorted(v)| == |v| && Sorted(v)[p] in v
  {
    hide Gather, ArgSort, Ascends;
    assert Sorted(v)[p] == v[ArgSort(v)[p]];
  }

  lemma SortedProperties(v: seq<real>)
    ensures |Sorted(v)| == |v|
    ensures multiset(Sorted(v)) == multiset(v)
    ensures forall p, q | 0 <= p <= q < |v| :: Sorted(v)[p] <= Sorted(v)[q]
  {
    hide Gather, ArgSortPrefix;
    ArgSortPrefixKeepsValues(v, |v|);
    assert v[..|v|] == v;
    var order := ArgSort(v);
    forall p, q | 0 <= p <= q < |v| ensures Sorted(v)[p] <= Sorted(v)[q] {
      assert p == q || Before(v, order[p], order[q]);
    }
  }

  lemma {:induction false} InsertIndexMembers(v: seq<real>, order: seq<nat>, k: nat, x: nat)
    requires k < |v|
    requires forall p | 0 <= p < |order| :: order[p] < k
    ensures x in InsertIndex(v, order, k) <==> x == k || x in order
  {
    var n := |order|;
    if n > 0 && v[order[n - 1]] > v[k] {
      InsertIndexMembers(v, order[..n - 1], k, x);
      assert order == order[..n - 1] + [order[n - 1]];
    }
  }

  lemma {:induction false} InsertIndexOrdered(v: seq<real>, order: seq<nat>, k: nat)
    requires k < |v|
    requires forall p | 0 <= p < |order| :: order[p] < k
    requires Ascends(v, order)
    ensures Ascends(v, InsertIndex(v, order, k))
  {
    hide InsertIndex, Ascends, Before;
    InsertIndexCases(v, order, k);
    var n := |order|;
    if n > 0 && v[order[n - 1]] > v[k] {
      var init, last := order[..n - 1], order[n - 1];
      AscendsCut(v, order);
      InsertIndexOrdered(v, init, k);
      var rest := InsertIndex(v, init, k);
      forall p | 0 <= p < n ensures Before(v, rest[p], last) {
        InsertIndexMembers(v, init, k, rest[p]);
        NewBeforeLast(v, order, k);
      }
      OrderedAppend(v, rest, last);
    } else {
      AllBeforeNew(v, order, k);
      OrderedAppend(v, order, k);
    }
  }

  lemma AscendsCut(v: seq<real>, order: seq<nat>)
    requires order != [] && Ascends(v, order)
    ensures Ascends(v, order[..|order| - 1])
    ensures var init, last := order[..|order| - 1], order[|order| - 1]; forall i | i in init :: Before(v, i, last)
  {
    hide Before;
  }

  lemma NewBeforeLast(v: seq<real>, order: seq<nat>, k: nat)
    requires order != [] && k < |v| && order[|order| - 1] < |v| && v[order[|order| - 1]] > v[k]
    ensures Before(v, k, order[|order| - 1])
  {
  }

  lemma AllBeforeNew(v: seq<real>, order: seq<nat>, k: nat)
    requires Ascends(v, order) && k < |v| && forall p | 0 <= p < |order| :: order[p] < k
    requires order == [] || v[order[|order| - 1]] <= v[k]
    ensures forall p | 0 <= p < |order| :: Before(v, order[p], k)
  {
    forall p | 0 <= p < |order| ensures Before(v, order[p], k) {
      assert p == |order| - 1 || Before(v, order[p], order[|order| - 1]);
    }
  }

  lemma OrderedAppend(v: seq<real>, order: seq<nat>, k: nat)
    requires Ascends(v, order) && forall p | 0 <= p < |order| :: Before(v, order[p], k)
    ensures Ascends(v, order + [k])
  {
    hide Before;
  }

  lemma ArgSortPrefixNext(v: seq<real>, n: nat)
    requires 0 < n <= |v|
    ensures ArgSortPrefix(v, n) == InsertIndex(v, ArgSortPrefix(v, n - 1), n - 1)
  {
    hide InsertIndex;
  }

  lemma {:induction false} ArgSortPrefixMembers(v: seq<real>, n: nat, k: nat)
    requires k < n <= |v|
    ensures k in ArgSortPrefix(v, n)
  {
    hide *;
    ArgSortPrefixNext(v, n);
    InsertIndexMembers(v, ArgSortPrefix(v, n - 1), n - 1, k);
    if k < n - 1 {
      ArgSortPrefixMembers(v, n - 1, k);
    }
  }

  lemma AllInArgSortPrefix(v: seq<real>)
    ensures forall k | 0 <= k < |v| :: k in ArgSortPrefix(v, |v|)
  {
    hide ArgSortPrefix;
    forall k | 0 <= k < |v| ensures k in ArgSortPrefix(v, |v|) {
      ArgSortPrefixMembers(v, |v|, k);
    }
  }

  lemma {:induction false} ArgSortPrefixOrdered(v: seq<real>, n: nat)
    requires n <= |v|
    ensures Ascends(v, ArgSortPrefix(v, n))
  {
    if n > 0 {
      hide Ascends, InsertIndex, ArgSortPrefix;
      ArgSortPrefixNext(v, n);
      ArgSortPrefixOrdered(v, n - 1);
      InsertIndexOrdered(v, ArgSortPrefix(v, n - 1), n - 1);
    }
  }

  lemma {:induction false} InsertIndexKeepsValues(v: seq<real>, order: seq<nat>, k: nat)
    requires k < |v|
    requires forall p | 0 <= p < |order| :: order[p] < k
    ensures multiset(Gather(v, InsertIndex(v, order, k))) == multiset(Gather(v, order)) + multiset{v[k]}
  {
    hide InsertIndex, Gather;
    InsertIndexCases(v, order, k);
    var n := |order|;
    if n > 0 && v[order[n - 1]] > v[k] {
      var rest, last := InsertIndex(v, order[..n - 1], k), order[n - 1];
      InsertIndexKeepsValues(v, order[..n - 1], k);
      GatherNext(v, rest, last);
      GatherNext(v, order[..n - 1], last);
      assert order == order[..n - 1] + [last];
      OneMoreValue(Gather(v, rest), Gather(v, order[..n - 1]), v[last], v[k]);
    } else {
      GatherNext(v, order, k);
    }
  }

  lemma InsertIndexCases(v: seq<real>, order: seq<nat>, k: nat)
    requires k < |v|
    requires forall p | 0 <= p < |order| :: order[p] < k
    ensures var n := |order|;
            InsertIndex(v, order, k) == if n > 0 && v[order[n - 1]] > v[k]
                                        then InsertIndex(v, order[..n - 1], k) + [order[n - 1]] else order + [k]
  {
  }

  lemma OneMoreValue(a: seq<real>, b: seq<real>, x: real, y: real)
    requires multiset(a) == multiset(b) + multiset{y}
    ensures multiset(a + [x]) == multiset(b + [x]) + multiset{y}
  {
  }

  lemma GatherNext(v: seq<real>, order: seq<nat>, k: nat)
    requires k < |v| && forall p | 0 <= p < |order| :: order[p] < |v|
    ensures Gather(v, order + [k]) == Gather(v, order) + [v[k]]
  {
    hide Gather;
  }

  lemma {:induction false} ArgSortPrefixKeepsValues(v: seq<real>, n: nat)
    requires n <= |v|
    ensures multiset(Gather(v, ArgSortPrefix(v, n))) == multiset(v[..n])
  {
    hide Gather, InsertIndex;
    if n == 0 {
      assert Gather(v, []) == [] by { assert |Gather(v, [])| == 0; }
    } else {
      ArgSortPrefixKeepsValues(v, n - 1);
      InsertIndexKeepsValues(v, ArgSortPrefix(v, n - 1), n - 1);
      assert v[..n] == v[..n - 1] + [v[n - 1]];
    }
  }

  /** There is only one stable order, so every stable sort returns it. */
  lemma {:induction false} StableOrderUnique(v: seq<real>, a: seq<nat>, b: seq<nat>, n: nat)
    requires IsStableOrder(v, a) && IsStableOrder(v, b)
    requires n <= |v|
    ensures a[..n] == b[..n]
  {
    if n > 0 {
      StableOrderUnique(v, a, b, n - 1);
      NextIndexNotLater(v, a, b, n - 1);
      NextIndexNotLater(v, b, a, n - 1);
      assert a[..n] == a[..n - 1] + [a[n - 1]];
      assert b[..n] == b[..n - 1] + [b[n - 1]];
    }
  }

  lemma NextIndexNotLater(v: seq<real>, a: seq<nat>, b: seq<nat>, k: nat)
    requires IsStableOrder(v, a) && IsStableOrder(v, b)
    requires k < |v| && a[..k] == b[..k]
    ensures a[k] == b[k] || Before(v, a[k], b[k])
  {
    assert b[k] in a;
    var q :| 0 <= q < |a| && a[q] == b[k];
    if q < k {
      assert false;
    }
  }
}
