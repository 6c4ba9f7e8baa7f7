/** The area under the ROC curve: the tie-averaged rank formula computes the pairwise definition. */
module RankAuc {
  import opened Wrappers
  import opened StableSort

  /** One positive `x` against one negative `y`: a win counts 1, a tie one half. */
  function Win(x: real, y: real): real {
    if y < x then 1.0 else if y == x then 0.5 else 0.0
  }

  ghost function Wins(x: real, s: seq<real>): real {
    if s == [] then 0.0 else Wins(x, s[..|s| - 1]) + Win(x, s[|s| - 1])
  }

  /** Pairs (positive, negative) with the positive above, plus half the tied pairs. */
  ghost function PairScore(pos: seq<real>, neg: seq<real>): real {
    if pos == [] then 0.0 else PairScore(pos[..|pos| - 1], neg) + Wins(pos[|pos| - 1], neg)
  }

  ghost function PairwiseAuc(pos: seq<real>, neg: seq<real>): real
    requires pos != [] && neg != []
  {
    PairScore(pos, neg) / (|pos| as real * |neg| as real)
  }

  function Sum(s: seq<real>): real {
    if s == [] then 0.0 else Sum(s[..|s| - 1]) + s[|s| - 1]
  }

  lemma {:induction false} WinsConcat(x: real, a: seq<real>, b: seq<real>)
    ensures Wins(x, a + b) == Wins(x, a) + Wins(x, b)
  {
    if b == [] {
      assert a + b == a;
    } else {
      WinsConcat(x, a, b[..|b| - 1]);
      assert (a + b)[..|a + b| - 1] == a + b[..|b| - 1];
    }
  }

  lemma {:induction false} WinsPermutation(x: real, a: seq<real>, b: seq<real>)
    requires multiset(a) == multiset(b)
    ensures Wins(x, a) == Wins(x, b)
  {
    if a == [] {
      assert |multiset(b)| == 0;
    } else {
      var y := a[|a| - 1];
      assert y in multiset(a);
      assert y in b;
      var k :| 0 <= k < |b| && b[k] == y;
      assert a == a[..|a| - 1] + [y];
      TakenOut(x, b, k);
      WinsPermutation(x, a[..|a| - 1], b[..k] + b[k + 1..]);
    }
  }

  /** One value less: its win is missing. */
  lemma TakenOut(x: real, b: seq<real>, k: nat)
    requires k < |b|
    ensures multiset(b[..k] + b[k + 1..]) == multiset(b) - multiset{b[k]}
    ensures Wins(x, b) == Wins(x, b[..k] + b[k + 1..]) + Win(x, b[k])
  {
    hide Win;
    var y := b[k];
    assert b == b[..k] + ([y] + b[k + 1..]);
    WinsConcat(x, b[..k], [y] + b[k + 1..]);
    WinsConcat(x, [y], b[k + 1..]);
    WinsConcat(x, b[..k], b[k + 1..]);
    assert [y][..0] == [];
    assert Wins(x, [y]) == Wins(x, []) + Win(x, y);
  }

  /** A block of values all below, all equal to, or all above `x`. */
  lemma {:induction false} WinsUniform(x: real, s: seq<real>, w: real)
    requires forall i | 0 <= i < |s| :: Win(x, s[i]) == w
    ensures Wins(x, s) == w * |s| as real
  {
    if s != [] {
      WinsUniform(x, s[..|s| - 1], w);
    }
  }

  /** A tie group preceded by `low` and followed by `high` shares the mean of its first and last rank. */
  lemma TieGroupRank(x: real, low: seq<real>, mid: seq<real>, high: seq<real>)
    requires forall p | 0 <= p < |low| :: low[p] < x
    requires forall p | 0 <= p < |mid| :: mid[p] == x
    requires forall p | 0 <= p < |high| :: x < high[p]
    ensures Wins(x, low + (mid + high)) == |low| as real + 0.5 * |mid| as real
  {
    hide Wins;
    WinsConcat(x, low, mid + high);
    WinsConcat(x, mid, high);
    WinsUniform(x, low, 1.0);
    WinsUniform(x, mid, 0.5);
    WinsUniform(x, high, 0.0);
  }

  /** Positions i..j of the sorted scores hold the whole tie group of s[i]: its mean rank is (i + j)/2 + 1. */
  lemma MeanRank(s: seq<real>, i: nat, j: nat)
    requires i <= j < |s|
    requires forall p | 0 <= p < i :: s[p] < s[i]
    requires forall p | i <= p <= j :: s[p] == s[i]
    requires forall p | j < p < |s| :: s[i] < s[p]
    ensures Wins(s[i], s) + 0.5 == (i + j) as real / 2.0 + 1.0
  {
    hide *;
    var low, mid, high := s[..i], s[i..j + 1], s[j + 1..];
    assert s == low + (mid + high);
    TieGroupRank(s[i], low, mid, high);
    MiddleOf(i, j);
  }

  lemma MiddleOf(i: nat, j: nat)
    requires i <= j
    ensures i as real + 0.5 * (j + 1 - i) as real + 0.5 == (i + j) as real / 2.0 + 1.0
  {
  }

  lemma {:induction false} PairScoreConcat(pos: seq<real>, a: seq<real>, b: seq<real>)
    ensures PairScore(pos, a + b) == PairScore(pos, a) + PairScore(pos, b)
  {
    if pos != [] {
      PairScoreConcat(pos[..|pos| - 1], a, b);
      WinsConcat(pos[|pos| - 1], a, b);
    }
  }

  lemma {:induction false} PairScoreColumn(pos: seq<real>, y: real)
    ensures PairScore(pos, [y]) == |pos| as real - Wins(y, pos)
  {
    if pos != [] {
      var k := |pos| - 1;
      PairScoreColumn(pos[..k], y);
      assert [y][..0] == [];
      assert Wins(pos[k], [y]) == Wins(pos[k], []) + Win(pos[k], y);
    }
  }

  /** Every pair is won by one side or shared: swapping the classes mirrors the score. */
  lemma {:induction false} PairScoreMirror(pos: seq<real>, neg: seq<real>)
    ensures PairScore(pos, neg) + PairScore(neg, pos) == |pos| as real * |neg| as real
  {
    if neg == [] {
      PairScoreNoNegatives(pos);
    } else {
      var k := |neg| - 1;
      PairScoreMirror(pos, neg[..k]);
      PairScoreColumn(pos, neg[k]);
      PairScoreConcat(pos, neg[..k], [neg[k]]);
      assert neg == neg[..k] + [neg[k]];
    }
  }

  lemma {:induction false} PairScoreNoNegatives(pos: seq<real>)
    ensures PairScore(pos, []) == 0.0
  {
    if pos != [] {
      PairScoreNoNegatives(pos[..|pos| - 1]);
    }
  }

  lemma {:induction false} RankSum(pos: seq<real>, all: seq<real>, ranks: seq<real>)
    requires |ranks| == |pos|
    requires forall k | 0 <= k < |pos| :: ranks[k] == Wins(pos[k], all) + 0.5
    ensures Sum(ranks) == PairScore(pos, all) + |pos| as real / 2.0
  {
    if pos != [] {
      RankSum(pos[..|pos| - 1], all, ranks[..|pos| - 1]);
    }
  }

  /** The ranks of the positives sum to their score in the pooled sample and their own self-ranks, n(n + 1)/2. */
  lemma RankNumerator(pos: seq<real>, neg: seq<real>, ranks: seq<real>)
    requires |ranks| == |pos|
    requires forall k | 0 <= k < |pos| :: ranks[k] == Wins(pos[k], pos + neg) + 0.5
    ensures Sum(ranks) - |pos| as real * (|pos| + 1) as real / 2.0 == PairScore(pos, neg)
  {
    hide *;
    var n, m := |pos| as real, (|pos| + 1) as real;
    RankSum(pos, pos + neg, ranks);
    PairScoreConcat(pos, pos, neg);
    PairScoreMirror(pos, pos);
    OneMore(n, m);
    LessSelfRanks(Sum(ranks), PairScore(pos, pos), PairScore(pos, neg), n, n * n, n * m);
  }

  lemma OneMore(n: real, m: real)
    requires m == n + 1.0
    ensures n * m == n * n + n
  {
  }

  lemma LessSelfRanks(sum: real, self: real, score: real, n: real, square: real, product: real)
    requires sum == self + score + n / 2.0 && self + self == square && product == square + n
    ensures sum - product / 2.0 == score
  {
  }

  /** The score of the positives in the pooled sample, less their own self-ranks, is the pairwise AUC. */
  lemma RankFormula(pos: seq<real>, neg: seq<real>, ranks: seq<real>)
    requires pos != [] && neg != []
    requires |ranks| == |pos|
    requires forall k | 0 <= k < |pos| :: ranks[k] == Wins(pos[k], pos + neg) + 0.5
    ensures (Sum(ranks) - |pos| as real * (|pos| + 1) as real / 2.0) / (|pos| as real * |neg| as real)
            == PairwiseAuc(pos, neg)
  {
    hide Wins, PairScore, Sum;
    RankNumerator(pos, neg, ranks);
    SameQuotient(Sum(ranks) - |pos| as real * (|pos| + 1) as real / 2.0, PairScore(pos, neg),
                 |pos| as real * |neg| as real);
  }

  lemma SameQuotient(a: real, b: real, d: real)
    requires a == b && d != 0.0
    ensures a / d == b / d
  {
  }

  lemma OrderIsInjective(v: seq<real>, order: seq<nat>)
    requires IsStableOrder(v, order)
    ensures Injective(order)
  {
    forall p, q | 0 <= p < q < |order|
      ensures order[p] != order[q]
    {
      assert Before(v, order[p], order[q]);
    }
  }

  ghost predicate Injective(order: seq<nat>) {
    forall p, q | 0 <= p < q < |order| :: order[p] != order[q]
  }

  /** `ranks[order[from:to]] = rank` */
  method RankGroup(ranks: array<real>, order: seq<nat>, from: nat, to: nat, rank: real)
    requires from <= to <= |order| && Injective(order) && forall p | 0 <= p < |order| :: order[p] < ranks.Length
    modifies ranks
    ensures forall p | 0 <= p < |order| :: ranks[order[p]] == if from <= p < to then rank else old(ranks[order[p]])
  {
    for p := from to to
      invariant forall q | 0 <= q < |order| :: ranks[order[q]] == if from <= q < p then rank else old(ranks[order[q]])
    {
      ranks[order[p]] := rank;
    }
  }

  method Auc(pos: seq<real>, neg: seq<real>) returns (r: Option<real>)
    ensures r.None? <==> pos == [] || neg == []
    ensures r.Some? ==> r.value == PairwiseAuc(pos, neg)
  {
    hide Wins, Win, PairScore, PairwiseAuc, Sum, Gather, ArgSort;
    if |pos| == 0 || |neg| == 0 {
      return None;
    }
    var allv := pos + neg;
    var order := ArgSort(allv);
    var ranks := new real[|allv|];
    var sortedV := Gather(allv, order);
    ghost var n := |allv|;
    SortedProperties(allv);
    OrderIsInjective(allv, order);
    hide Injective, Before;
    var i := 0;
    while i < |sortedV|
      invariant 0 <= i <= n
      invariant i < n ==> forall p | 0 <= p < i :: sortedV[p] < sortedV[i]
      invariant forall p | 0 <= p < i :: ranks[order[p]] == Wins(sortedV[p], allv) + 0.5
    {
      var j := i;
      while j + 1 < |sortedV| && sortedV[j + 1] == sortedV[i]
        invariant i <= j < n
        invariant forall p | i <= p <= j :: sortedV[p] == sortedV[i]
      {
        j := j + 1;
      }
      assert forall p | j < p < n :: sortedV[i] < sortedV[p] by {
        assert forall p | j < p < n :: sortedV[j + 1] <= sortedV[p];
      }
      MeanRank(sortedV, i, j);
      WinsPermutation(sortedV[i], sortedV, allv);
      RankGroup(ranks, order, i, j + 1, (i + j) as real / 2.0 + 1.0);
      i := j + 1;
    }
    forall k | 0 <= k < |pos| ensures ranks[k] == Wins(pos[k], allv) + 0.5 {
      assert k in order;
      var p :| 0 <= p < n && order[p] == k;
    }
    var rPos := Sum(ranks[..|pos|]);
    RankFormula(pos, neg, ranks[..|pos|]);
    r := Some((rPos - |pos| as real * (|pos| + 1) as real / 2.0) / (|pos| as real * |neg| as real));
  }

  /** Swapping positives and negatives gives one minus the result. */
  lemma AucSwap(pos: seq<real>, neg: seq<real>)
    requires pos != [] && neg != []
    ensures PairwiseAuc(neg, pos) == 1.0 - PairwiseAuc(pos, neg)
  {
    PairScoreMirror(pos, neg);
    var d := |pos| as real * |neg| as real;
    assert |neg| as real * |pos| as real == d;
    SharesSumToOne(PairScore(pos, neg), PairScore(neg, pos), d);
  }

  lemma SharesSumToOne(a: real, b: real, d: real)
    requires a + b == d && d > 0.0
    ensures a / d + b / d == 1.0
  {
    var x, y := a / d, b / d;
    assert x * d == a && y * d == b;
    assert (x + y) * d == x * d + y * d;
    assert (x + y - 1.0) * d == 0.0;
  }

  lemma {:induction false} WinsBounds(x: real, s: seq<real>)
    ensures 0.0 <= Wins(x, s) <= |s| as real
    ensures Wins(x, s) == |s| as real <==> forall j | 0 <= j < |s| :: s[j] < x
  {
    if s != [] {
      var k := |s| - 1;
      WinsBounds(x, s[..k]);
      assert (forall j | 0 <= j < |s| :: s[j] < x) <==> (forall j | 0 <= j < k :: s[..k][j] < x) && s[k] < x;
    }
  }

  /** Every positive scores above every negative. */
  ghost predicate Separated(pos: seq<real>, neg: seq<real>) {
    forall i, j | 0 <= i < |pos| && 0 <= j < |neg| :: neg[j] < pos[i]
  }

  lemma {:induction false} PairScoreBounds(pos: seq<real>, neg: seq<real>)
    ensures 0.0 <= PairScore(pos, neg) <= |pos| as real * |neg| as real
    ensures PairScore(pos, neg) == |pos| as real * |neg| as real <==> Separated(pos, neg)
  {
    hide Wins;
    if pos != [] {
      var k := |pos| - 1;
      PairScoreBounds(pos[..k], neg);
      WinsBounds(pos[k], neg);
      assert Separated(pos, neg) <==> Separated(pos[..k], neg) && forall j | 0 <= j < |neg| :: neg[j] < pos[k];
      OneMoreRow(k, |neg|);
      hide Separated;
    }
  }

  lemma OneMoreRow(k: nat, m: nat)
    ensures (k + 1) as real * m as real == k as real * m as real + m as real
  {
    assert (k + 1) as real == k as real + 1.0;
  }

  /** The AUC lies in [0, 1], and it is 1 exactly when every positive is above every negative. */
  lemma AucPerfectIffSeparated(pos: seq<real>, neg: seq<real>)
    requires pos != [] && neg != []
    ensures 0.0 <= PairwiseAuc(pos, neg) <= 1.0
    ensures PairwiseAuc(pos, neg) == 1.0 <==> Separated(pos, neg)
  {
    PairScoreBounds(pos, neg);
    Share(PairScore(pos, neg), |pos| as real * |neg| as real);
  }

  lemma Share(a: real, d: real)
    requires 0.0 <= a <= d && d > 0.0
    ensures 0.0 <= a / d <= 1.0
    ensures a / d == 1.0 <==> a == d
  {
    SharesSumToOne(a, d - a, d);
    assert (a / d) * d == a && ((d - a) / d) * d == d - a;
  }
}
