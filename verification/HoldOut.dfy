/** The chronological train/validation split, and the hold-out cut that the evaluation bench repeats. */
module HoldOut {
  import opened StableSort

  /** Python's `int()`: towards zero. */
  function Truncate(x: real): int {
    if x >= 0.0 then x.Floor else -((-x).Floor)
  }

  /** Where Python's `s[:k]` and `s[k:]` cut a sequence of length `n`. */
  function SliceBound(n: nat, k: int): (b: nat)
    ensures b <= n
  {
    if k >= n then n else if k >= 0 then k else if n + k >= 0 then n + k else 0
  }

  function CutPoint(n: nat, valFraction: real): (b: nat)
    ensures b <= n
  {
    SliceBound(n, Truncate(n as real * (1.0 - valFraction)))
  }

  /** `_temporal_split` on the rows of a window: the oldest rows train, the newest validate. */
  function TemporalSplit<T>(rows: seq<T>, ts: seq<real>, valFraction: real): (seq<T>, seq<T>)
    requires |rows| == |ts|
  {
    var order := ArgSort(ts);
    var cut := CutPoint(|ts|, valFraction);
    (Gather(rows, order[..cut]), Gather(rows, order[cut..]))
  }

  /** The benign hold-out that `evaluate` scores. */
  method HoldOutRows<T>(rows: seq<T>, ts: seq<real>, valFraction: real) returns (held: seq<T>)
    requires |rows| == |ts|
    ensures held == TemporalSplit(rows, ts, valFraction).1
  {
    hide Gather;
    var order := ArgSort(ts)[CutPoint(|ts|, valFraction)..];
    held := [];
    for i := 0 to |order|
      invariant held == Gather(rows, order[..i])
    {
      GatherNext(rows, order, i);
      held := held + [rows[order[i]]];
    }
    assert order[..|order|] == order;
  }

  lemma GatherNext<T>(rows: seq<T>, order: seq<nat>, i: nat)
    requires i < |order| && forall p | 0 <= p < |order| :: order[p] < |rows|
    ensures Gather(rows, order[..i + 1]) == Gather(rows, order[..i]) + [rows[order[i]]]
  {
    assert order[..i + 1][..i] == order[..i];
  }

  /** The rows at the positions of `order` from `lo` to `hi`. */
  ghost predicate Picks<T>(picked: seq<T>, rows: seq<T>, order: seq<nat>, lo: nat, hi: nat)
    requires lo <= hi <= |order| && forall p | 0 <= p < |order| :: order[p] < |rows|
  {
    |picked| == hi - lo && forall p | lo <= p < hi :: picked[p - lo] == rows[order[p]]
  }

  /**
   * The two sides, in the one order by time in which equal timestamps stay in arrival order: training takes the rows
   * before the cut and validation those from it on.
   */
  lemma SplitIsChronological<T>(rows: seq<T>, ts: seq<real>, valFraction: real, order: seq<nat>)
    requires |rows| == |ts| && IsStableOrder(ts, order)
    ensures var (train, held), cut := TemporalSplit(rows, ts, valFraction), CutPoint(|ts|, valFraction);
            Picks(train, rows, order, 0, cut) && Picks(held, rows, order, cut, |ts|)
  {
    hide Gather, ArgSort, CutPoint;
    StableOrderUnique(ts, order, ArgSort(ts), |ts|);
    assert order == order[..|ts|] && ArgSort(ts) == ArgSort(ts)[..|ts|];
  }

  /** Splitting the timestamps themselves: none that trains is later than one that validates, and none is lost. */
  lemma TrainsOnThePast(ts: seq<real>, valFraction: real)
    ensures var (train, held) := TemporalSplit(ts, ts, valFraction);
            && (forall x, y | x in train && y in held :: x <= y)
            && |train| + |held| == |ts|
  {
    hide Gather, CutPoint;
    var order, cut := ArgSort(ts), CutPoint(|ts|, valFraction);
    hide ArgSort;
    forall p, q | 0 <= p < cut <= q < |ts| ensures ts[order[p]] <= ts[order[q]] {
      assert Before(ts, order[p], order[q]);
    }
  }

  /** Every row is on exactly one side of the cut. */
  lemma EachRowOnOneSide(ts: seq<real>, valFraction: real)
    ensures var order, cut := ArgSort(ts), CutPoint(|ts|, valFraction);
            && (forall p, q | 0 <= p < cut <= q < |ts| :: Before(ts, order[p], order[q]))
            && (forall k: nat | k < |ts| :: k in order[..cut] <==> k !in order[cut..])
  {
    hide Gather, ArgSort, CutPoint;
    var order, cut := ArgSort(ts), CutPoint(|ts|, valFraction);
    forall k: nat | k < |ts| ensures k in order[..cut] <==> k !in order[cut..] {
      assert k in order;
      assert order == order[..cut] + order[cut..];
      if k in order[..cut] {
        var p :| 0 <= p < cut && order[..cut][p] == k;
        forall q | cut <= q < |ts| ensures order[q] != k {
          assert Before(ts, order[p], order[q]);
        }
      }
    }
  }

  /**
   * Outside [0, 1] the slice still means something: below 0 everything trains, and above 1 the cut counts from the end,
   * once the overshoot reaches a whole row.
   */
  lemma ShareOutsideUnit(n: nat, valFraction: real)
    ensures valFraction < 0.0 ==> CutPoint(n, valFraction) == n
    ensures valFraction > 1.0 ==>
              var over := (n as real * (valFraction - 1.0)).Floor;
              CutPoint(n, valFraction) == if over == 0 || over > n then 0 else n - over
  {
    var x, y := n as real * (1.0 - valFraction), n as real * (valFraction - 1.0);
    Overshoot(n as real, valFraction, x, y);
    if valFraction < 0.0 {
      assert x.Floor >= n;
    }
  }

  lemma Overshoot(n: real, f: real, x: real, y: real)
    requires n >= 0.0 && x == n * (1.0 - f) && y == n * (f - 1.0)
    ensures y == -x
    ensures f < 0.0 ==> x >= n
    ensures f > 1.0 ==> y >= 0.0
  {
  }

  /** For a fraction in [0, 1] the validation side holds the rounded-up share of the rows. */
  lemma ValidationShare(n: nat, valFraction: real)
    requires 0.0 <= valFraction <= 1.0
    ensures n as real * valFraction <= (n - CutPoint(n, valFraction)) as real < n as real * valFraction + 1.0
  {
    var x, y := n as real * (1.0 - valFraction), n as real * valFraction;
    Shares(n as real, valFraction, x, y);
    assert x.Floor <= n;
  }

  lemma Shares(n: real, f: real, x: real, y: real)
    requires 0.0 <= f <= 1.0 && n >= 0.0 && x == n * (1.0 - f) && y == n * f
    ensures x >= 0.0 && y >= 0.0 && x + y == n
  {
  }
}
