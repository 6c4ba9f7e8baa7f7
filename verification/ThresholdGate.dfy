/** The stability gate of the window trainer: when a newly trained baseline may replace the live one. */
module ThresholdGate {
  import opened Deque
  import opened StableSort

  /** Configuration: allowed factor around the median, reference windows, rejections before a regime change. */
  datatype Config = Config(maxRatio: real, refWindows: int, maxRejects: int) {
    function Capacity(): nat {
      if refWindows < 1 then 1 else refWindows
    }
  }

  /** The gate after a run, every threshold accepted since the last reset, and all decisions so far. */
  datatype Gate = Gate(accepted: seq<real>, rejects: nat, epoch: seq<real>, decisions: seq<bool>)

  function Median(s: seq<real>): real
    requires s != []
  {
    SortedProperties(s);
    var sorted := Sorted(s);
    var h := |s| / 2;
    if |s| % 2 == 1 then sorted[h] else (sorted[h - 1] + sorted[h]) / 2.0
  }

  ghost predicate Rising(t: seq<real>) {
    forall i, j | 0 <= i < j < |t| :: t[i] <= t[j]
  }

  /** `t` lists the values of `s` in order, and `m` is its middle entry, or the mean of the two middle ones. */
  ghost predicate MiddleOf(m: real, t: seq<real>, s: seq<real>) {
    s != [] && multiset(t) == multiset(s) && |t| == |s| && Rising(t) && m == (t[(|s| - 1) / 2] + t[|s| / 2]) / 2.0
  }

  ghost predicate IsMedian(m: real, s: seq<real>) {
    exists t :: MiddleOf(m, t, s)
  }

  lemma SameLast(a: seq<real>, b: seq<real>)
    requires Rising(a) && Rising(b) && a != [] && b != [] && multiset(a) == multiset(b)
    ensures a[|a| - 1] == b[|b| - 1]
  {
    var x, y := a[|a| - 1], b[|b| - 1];
    assert x in multiset(a) && y in multiset(b);
    assert x in b && y in a;
  }

  /** There is only one way to list values in order. */
  lemma {:induction false} RisingUnique(a: seq<real>, b: seq<real>)
    requires Rising(a) && Rising(b) && multiset(a) == multiset(b)
    ensures a == b
  {
    hide Rising;
    assert |multiset(a)| == |a| && |multiset(b)| == |b|;
    if a != [] {
      SameLast(a, b);
      var a', b', x := a[..|a| - 1], b[..|b| - 1], a[|a| - 1];
      assert a == a' + [x] && b == b' + [x];
      RisingFront(a', x);
      RisingFront(b', x);
      RisingUnique(a', b');
    }
  }

  lemma RisingFront(front: seq<real>, x: real)
    requires Rising(front + [x])
    ensures Rising(front) && multiset(front) == multiset(front + [x]) - multiset{x}
  {
    assert forall i | 0 <= i < |front| :: (front + [x])[i] == front[i];
  }

  /** The median is the middle of the values in order, whichever way they are put in order. */
  lemma MedianIsMiddle(s: seq<real>, t: seq<real>)
    requires s != [] && multiset(t) == multiset(s) && Rising(t)
    ensures |t| == |s| && Median(s) == (t[(|s| - 1) / 2] + t[|s| / 2]) / 2.0
  {
    hide Sorted;
    SortedProperties(s);
    RisingUnique(t, Sorted(s));
  }

  lemma MedianOnly(m: real, s: seq<real>)
    requires s != []
    ensures IsMedian(m, s) <==> m == Median(s)
  {
    hide Sorted, Median;
    SortedProperties(s);
    MedianIsMiddle(s, Sorted(s));
    assert MiddleOf(Median(s), Sorted(s), s);
    if IsMedian(m, s) {
      var t :| MiddleOf(m, t, s);
      MedianIsMiddle(s, t);
    }
  }

  /** The gate objects: there is a positive median to compare with, and the threshold is off by more than the ratio. */
  ghost predicate OutOfBand(threshold: real, reference: seq<real>, maxRatio: real) {
    && maxRatio > 0.0 && reference != []
    && exists m :: IsMedian(m, reference) && m > 0.0 && !(m / maxRatio <= threshold <= m * maxRatio)
  }

  lemma StableIffInBand(threshold: real, reference: seq<real>, maxRatio: real)
    ensures IsStable(threshold, reference, maxRatio) <==> !OutOfBand(threshold, reference, maxRatio)
  {
    hide Median, IsMedian;
    if reference != [] {
      MedianOnly(Median(reference), reference);
      forall m | IsMedian(m, reference) ensures m == Median(reference) {
        MedianOnly(m, reference);
      }
    }
  }

  function IsStable(threshold: real, reference: seq<real>, maxRatio: real): bool {
    if maxRatio <= 0.0 || reference == [] then true
    else
      var median := Median(reference);
      if median <= 0.0 then true
      else median / maxRatio <= threshold <= median * maxRatio
  }

  function Offer(c: Config, g: Gate, t: real): Gate {
    if IsStable(t, g.accepted, c.maxRatio) then
      Gate(Push(g.accepted, t, c.Capacity()), 0, g.epoch + [t], g.decisions + [true])
    else if g.rejects < c.maxRejects then
      g.(rejects := g.rejects + 1, decisions := g.decisions + [false])
    else
      Gate([t], 0, [t], g.decisions + [true])
  }

  function Run(c: Config, ts: seq<real>): Gate {
    if ts == [] then Gate([], 0, [], []) else Offer(c, Run(c, ts[..|ts| - 1]), ts[|ts| - 1])
  }

  class WindowTrainer {
    const config: Config
    var accepted: seq<real>
    var consecutiveRejects: nat
    ghost var offered: seq<real>

    ghost predicate Valid()
      reads this
    {
      var g := Run(config, offered);
      accepted == g.accepted && consecutiveRejects == g.rejects
    }

    constructor (config: Config)
      ensures Valid() && offered == [] && this.config == config
    {
      this.config := config;
      accepted, consecutiveRejects, offered := [], 0, [];
    }

    method AcceptThreshold(threshold: real) returns (ok: bool)
      requires Valid()
      modifies this
      ensures Valid() && offered == old(offered) + [threshold]
      ensures Run(config, offered).decisions == Run(config, old(offered)).decisions + [ok]
      ensures !ok <==> OutOfBand(threshold, old(accepted), config.maxRatio)
                       && old(consecutiveRejects) < config.maxRejects
      ensures consecutiveRejects == if ok then 0 else old(consecutiveRejects) + 1
      ensures accepted == if !ok then old(accepted)
                          else if OutOfBand(threshold, old(accepted), config.maxRatio) then [threshold]
                          else Newest(old(accepted) + [threshold],
                                      if config.refWindows < 1 then 1 else config.refWindows)
    {
      hide IsStable, Newest, Push, OutOfBand;
      StableIffInBand(threshold, accepted, config.maxRatio);
      PushIsNewest(accepted, threshold, config.Capacity());
      OneEntry(threshold, config.Capacity());
      PushIsNewest([], threshold, config.Capacity());
      assert [] + [threshold] == [threshold];
      offered := offered + [threshold];
      assert offered[..|offered| - 1] == old(offered);
      var reference := accepted;
      if !IsStable(threshold, reference, config.maxRatio) {
        if consecutiveRejects < config.maxRejects {
          consecutiveRejects := consecutiveRejects + 1;
          return false;
        }
        accepted := [];
      }
      consecutiveRejects := 0;
      accepted := Push(accepted, threshold, config.Capacity());
      return true;
    }
  }

  /** What every run keeps: the reference is the newest `Capacity()` of the epoch. */
  ghost predicate RefersToNewest(c: Config, g: Gate) {
    g.accepted == Newest(g.epoch, c.Capacity())
  }

  /** What every run keeps: the reject counter counts the rejections since the last acceptance. */
  ghost predicate CountsRejects(c: Config, g: Gate) {
    && g.rejects <= |g.decisions|
    && (g.rejects == 0 || g.rejects <= c.maxRejects)
    && (forall i | |g.decisions| - g.rejects <= i < |g.decisions| :: !g.decisions[i])
    && (g.rejects < |g.decisions| ==> g.decisions[|g.decisions| - 1 - g.rejects])
  }

  ghost predicate Shape(c: Config, g: Gate) {
    RefersToNewest(c, g) && CountsRejects(c, g)
  }

  lemma OneEntry(t: real, cap: nat)
    requires cap > 0
    ensures Newest([t], cap) == [t]
  {
  }

  lemma OfferRefersToNewest(c: Config, g: Gate, t: real)
    requires RefersToNewest(c, g)
    ensures RefersToNewest(c, Offer(c, g, t))
  {
    hide IsStable, Newest, Push;
    PushNewest(g.epoch, t, c.Capacity());
    OneEntry(t, c.Capacity());
  }

  lemma OfferCountsRejects(c: Config, g: Gate, t: real)
    requires CountsRejects(c, g)
    ensures CountsRejects(c, Offer(c, g, t))
  {
    hide IsStable, Push;
  }

  lemma OfferDecidesOnce(c: Config, g: Gate, t: real)
    ensures |Offer(c, g, t).decisions| == |g.decisions| + 1
    ensures Offer(c, g, t).decisions[..|g.decisions|] == g.decisions
  {
    hide IsStable, Push;
  }

  lemma {:induction false} RunShape(c: Config, ts: seq<real>)
    ensures Shape(c, Run(c, ts))
    ensures |Run(c, ts).decisions| == |ts|
  {
    if ts != [] {
      RunShape(c, ts[..|ts| - 1]);
      var g, t := Run(c, ts[..|ts| - 1]), ts[|ts| - 1];
      OfferRefersToNewest(c, g, t);
      OfferCountsRejects(c, g, t);
      OfferDecidesOnce(c, g, t);
      hide RefersToNewest, CountsRejects, IsStable, Push;
    }
  }

  lemma MedianBetween(s: seq<real>, lo: real, hi: real)
    requires s != []
    requires forall i | 0 <= i < |s| :: lo <= s[i] <= hi
    ensures lo <= Median(s) <= hi
  {
    hide Sorted;
    forall i | 0 <= i < |s| ensures |Sorted(s)| == |s| && lo <= Sorted(s)[i] <= hi {
      SortedMember(s, i);
    }
  }

  lemma MedianPositive(s: seq<real>)
    requires s != []
    requires forall i | 0 <= i < |s| :: s[i] > 0.0
    ensures Median(s) > 0.0
  {
    hide Sorted;
    forall i | 0 <= i < |s| ensures |Sorted(s)| == |s| && Sorted(s)[i] > 0.0 {
      SortedMember(s, i);
    }
  }

  ghost function Pow(r: real, k: nat): real {
    if k == 0 then 1.0 else Pow(r, k - 1) * r
  }

  lemma {:induction false} PowGrows(r: real, j: nat, k: nat)
    requires r >= 1.0 && j <= k
    ensures 1.0 <= Pow(r, j) <= Pow(r, k)
  {
    if k > 0 {
      if j < k {
        PowGrows(r, j, k - 1);
        ScaleUp(Pow(r, k - 1), r);
      } else {
        PowGrows(r, j - 1, k - 1);
        ScaleUp(Pow(r, k - 1), r);
      }
    }
  }

  lemma ScaleUp(x: real, r: real)
    requires x >= 1.0 && r >= 1.0
    ensures x * r >= x
  {
    assert x * (r - 1.0) >= 0.0;
  }

  /** `t` is within the factor `f` of `t0`: t0 / f <= t <= t0 * f, written without the division. */
  ghost predicate Within(t0: real, t: real, f: real) {
    t0 <= t * f && t <= t0 * f
  }

  lemma WidenBand(t0: real, t: real, f: real, f': real)
    requires t0 > 0.0 && t > 0.0 && f <= f' && Within(t0, t, f)
    ensures Within(t0, t, f')
  {
    assert t * (f' - f) >= 0.0 && t0 * (f' - f) >= 0.0;
  }

  /** A stable threshold moves at most one more factor `r` away than the reference it is compared with. */
  lemma StableStep(t0: real, reference: seq<real>, t: real, r: real, f: real)
    requires t0 > 0.0 && t > 0.0 && r >= 1.0 && f >= 1.0
    requires reference != [] && IsStable(t, reference, r)
    requires forall i | 0 <= i < |reference| :: reference[i] > 0.0 && Within(t0, reference[i], f)
    ensures Within(t0, t, f * r)
  {
    hide Median, IsStable;
    var lo, hi := t0 / f, t0 * f;
    assert lo * f == t0 && lo > 0.0;
    forall i | 0 <= i < |reference| ensures lo <= reference[i] {
      assert (reference[i] - lo) * f >= 0.0;
    }
    MedianBetween(reference, lo, hi);
    var m := Median(reference);
    assert m / r <= t <= m * r by { StableMeans(t, reference, r); }
    assert (m / r) * r == m;
    BandProduct(t0, lo, hi, m, t, r, f);
  }

  lemma StableMeans(t: real, reference: seq<real>, r: real)
    requires r > 0.0 && reference != [] && Median(reference) > 0.0
    ensures IsStable(t, reference, r) <==> Median(reference) / r <= t <= Median(reference) * r
  {
  }

  lemma BandProduct(t0: real, lo: real, hi: real, m: real, t: real, r: real, f: real)
    requires f >= 1.0 && r >= 1.0 && lo * f == t0 && hi == t0 * f
    requires lo <= m <= hi && m / r <= t <= m * r
    ensures Within(t0, t, f * r)
  {
    var q, tr, mr, hr := m / r, t * r, m * r, hi * r;
    Raise(q, t, r, m, tr);
    Raise(lo, tr, f, t0, tr * f);
    Raise(m, hi, r, mr, hr);
    assert t * (f * r) == tr * f;
    assert t0 * (f * r) == hr;
  }

  /** Multiplying by a factor of at least one keeps an order. */
  lemma Raise(x: real, y: real, r: real, p: real, q: real)
    requires x <= y && r >= 1.0 && p == x * r && q == y * r
    ensures p <= q
  {
    assert (y - x) * r >= 0.0;
  }

  /**
   * Drift since the last reset: the k-th threshold accepted after the epoch's first one is within the
   * factor maxRatio^k of it, for every run of positive thresholds and every enabled gate.
   */
  lemma {:induction false} EpochDriftBound(c: Config, ts: seq<real>)
    requires c.maxRatio > 0.0
    requires forall i | 0 <= i < |ts| :: ts[i] > 0.0
    ensures DriftBounded(c, Run(c, ts).epoch)
  {
    hide IsStable;
    if ts != [] {
      var init, t := ts[..|ts| - 1], ts[|ts| - 1];
      EpochDriftBound(c, init);
      RunShape(c, init);
      var g := Run(c, init);
      if g.epoch == [] || !IsStable(t, g.accepted, c.maxRatio) {
        assert Pow(c.maxRatio, 0) == 1.0;
      } else {
        EpochStep(c, g, t);
      }
    }
  }

  ghost predicate DriftBounded(c: Config, epoch: seq<real>) {
    forall k | 0 <= k < |epoch| :: epoch[k] > 0.0 && Within(epoch[0], epoch[k], Pow(c.maxRatio, k))
  }

  lemma EpochStep(c: Config, g: Gate, t: real)
    requires c.maxRatio > 0.0 && t > 0.0 && g.epoch != []
    requires RefersToNewest(c, g) && DriftBounded(c, g.epoch)
    requires IsStable(t, g.accepted, c.maxRatio)
    ensures Within(g.epoch[0], t, Pow(c.maxRatio, |g.epoch|))
  {
    ReferenceBand(c, g);
    ReferenceStep(c, g, t);
  }

  ghost predicate InBand(t0: real, reference: seq<real>, r: real, f: real) {
    && t0 > 0.0 && reference != []
    && forall i | 0 <= i < |reference| :: reference[i] > 0.0 && (r >= 1.0 ==> Within(t0, reference[i], f))
  }

  lemma ReferenceStep(c: Config, g: Gate, t: real)
    requires c.maxRatio > 0.0 && t > 0.0 && g.epoch != []
    requires InBand(g.epoch[0], g.accepted, c.maxRatio, Pow(c.maxRatio, |g.epoch| - 1))
    requires IsStable(t, g.accepted, c.maxRatio)
    ensures Within(g.epoch[0], t, Pow(c.maxRatio, |g.epoch|))
  {
    hide Within, Median, IsStable;
    var r, n := c.maxRatio, |g.epoch|;
    if r < 1.0 {
      NothingStableBelowOne(t, g.accepted, r);
    } else {
      PowGrows(r, 0, n - 1);
      var f := Pow(r, n - 1);
      StableStep(g.epoch[0], g.accepted, t, r, f);
      assert Pow(r, n) == f * r;
    }
  }

  lemma ReferenceBand(c: Config, g: Gate)
    requires g.epoch != [] && RefersToNewest(c, g) && DriftBounded(c, g.epoch)
    ensures InBand(g.epoch[0], g.accepted, c.maxRatio, Pow(c.maxRatio, |g.epoch| - 1))
  {
    hide Within, Newest, Pow;
    forall i | 0 <= i < |g.accepted|
      ensures g.accepted[i] > 0.0
      ensures c.maxRatio >= 1.0 ==> Within(g.epoch[0], g.accepted[i], Pow(c.maxRatio, |g.epoch| - 1))
    {
      NewestAt(g.epoch, c.Capacity(), i);
      EntryBand(c, g.epoch, |g.epoch| - |g.accepted| + i);
    }
  }

  lemma EntryBand(c: Config, epoch: seq<real>, k: nat)
    requires k < |epoch| && DriftBounded(c, epoch)
    ensures epoch[k] > 0.0
    ensures c.maxRatio >= 1.0 ==> Within(epoch[0], epoch[k], Pow(c.maxRatio, |epoch| - 1))
  {
    hide Within, Pow;
    if c.maxRatio >= 1.0 {
      PowGrows(c.maxRatio, k, |epoch| - 1);
      WidenBand(epoch[0], epoch[k], Pow(c.maxRatio, k), Pow(c.maxRatio, |epoch| - 1));
    }
  }

  /** A ratio below one admits nothing at all once there is a positive reference. */
  lemma NothingStableBelowOne(t: real, reference: seq<real>, r: real)
    requires 0.0 < r < 1.0 && reference != []
    requires forall i | 0 <= i < |reference| :: reference[i] > 0.0
    ensures !IsStable(t, reference, r)
  {
    hide Median, IsStable;
    MedianPositive(reference);
    StableMeans(t, reference, r);
    EmptyBand(Median(reference), r);
  }

  lemma EmptyBand(m: real, r: real)
    requires m > 0.0 && 0.0 < r < 1.0
    ensures m * r < m < m / r
  {
    var q := m / r;
    assert q * r == m;
    assert q > 0.0;
    ScaleDown(m, r, m * r);
    ScaleDown(q, r, m);
  }

  lemma ScaleDown(x: real, r: real, p: real)
    requires x > 0.0 && 0.0 < r < 1.0 && p == x * r
    ensures p < x
  {
    var d := 1.0 - r;
    assert x * d > 0.0;
    assert x * r == x - x * d;
  }

  lemma {:induction false} DecisionsOnlyGrow(c: Config, ts: seq<real>, n: nat)
    requires n <= |ts|
    ensures |Run(c, ts).decisions| == |ts|
    ensures Run(c, ts).decisions[..n] == Run(c, ts[..n]).decisions
  {
    hide Offer, Shape;
    RunShape(c, ts);
    if n < |ts| {
      var init := ts[..|ts| - 1];
      DecisionsOnlyGrow(c, init, n);
      assert init[..n] == ts[..n];
      RunShape(c, init);
      OfferDecidesOnce(c, Run(c, init), ts[|ts| - 1]);
      var old', new' := Run(c, init).decisions, Run(c, ts).decisions;
      assert new'[..|init|] == old';
      assert new'[..n] == new'[..|init|][..n];
    } else {
      assert ts[..n] == ts;
    }
  }

  /** No run of calls has more than maxRejects rejections in a row, wherever it starts. */
  lemma NoLongRejectRun(c: Config, ts: seq<real>, i: nat, j: nat)
    requires i <= j <= |ts|
    requires forall k | i <= k < j && k < |Run(c, ts).decisions| :: !Run(c, ts).decisions[k]
    ensures j - i <= (if c.maxRejects < 0 then 0 else c.maxRejects)
  {
    DecisionsOnlyGrow(c, ts, j);
    RunShape(c, ts[..j]);
    var g := Run(c, ts[..j]);
    hide Run;
    assert forall k | 0 <= k < j :: g.decisions[k] == Run(c, ts).decisions[k];
  }
}
