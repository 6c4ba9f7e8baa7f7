/** The ensemble scorer: the weights of absent engines are shared out, then come a boost and an override. */
module Ensemble {
  import opened Wrappers

  datatype Engine = Supervised | IsolationForest | Lstm | Rules | Baseline

  /** An engine with a score, and its base weight. */
  datatype Entry = Entry(engine: Engine, weight: real, score: real)

  /** Base weights and overrides per attack type; calibration is any function on scores. */
  datatype Config = Config(base: Engine -> real, overrides: map<string, map<Engine, real>>, benign: string -> bool,
                           critical: set<string>, threshold: real, calibrate: real -> real)

  const TI_IP := "threat_intel_malicious_ip"
  const TI_JA3 := "threat_intel_malicious_ja3"
  const BOOST := 0.30

  function WeightOf(c: Config, attackType: Option<string>, e: Engine): real {
    if attackType.Some? && !c.benign(attackType.value) && attackType.value in c.overrides
       && e in c.overrides[attackType.value]
    then c.overrides[attackType.value][e]
    else c.base(e)
  }

  function Total(es: seq<Entry>): real {
    if es == [] then 0.0 else Total(es[..|es| - 1]) + es[|es| - 1].weight
  }

  /** An engine's weight after redistribution. */
  function Share(e: Entry, total: real): real
    requires total != 0.0
  {
    e.weight / total
  }

  function Blend(es: seq<Entry>, total: real): real
    requires total != 0.0
  {
    if es == [] then 0.0
    else Blend(es[..|es| - 1], total) + Share(es[|es| - 1], total) * es[|es| - 1].score
  }

  function ShareSum(es: seq<Entry>, total: real): real
    requires total != 0.0
  {
    if es == [] then 0.0 else ShareSum(es[..|es| - 1], total) + Share(es[|es| - 1], total)
  }

  /** Unnormalised: the sum of weight times score. */
  function Mass(es: seq<Entry>): real {
    if es == [] then 0.0 else Mass(es[..|es| - 1]) + es[|es| - 1].weight * es[|es| - 1].score
  }

  /* ---- arithmetic ---- */

  lemma Quotient(w: real, total: real)
    requires total != 0.0
    ensures w / total * total == w
  {
  }

  lemma Scaled(q: real, s: real, total: real, w: real)
    requires q * total == w
    ensures q * s * total == w * s
  {
    assert q * s * total == q * total * s;
  }

  lemma ScaleKeepsOrder(x: real, y: real, total: real, p: real, q: real)
    requires total > 0.0 && p == x * total && q == y * total
    ensures x < y <==> p < q
    ensures x <= y <==> p <= q
  {
    if x < y {
      assert (y - x) * total > 0.0;
    }
    if y < x {
      assert (x - y) * total > 0.0;
    }
  }

  lemma WeighKeepsOrder(w: real, x: real, y: real)
    requires w >= 0.0 && x <= y
    ensures w * x <= w * y
  {
  }

  /* ---- redistribution ---- */

  lemma {:induction false} SharesTimesTotal(es: seq<Entry>, total: real)
    requires total != 0.0
    ensures ShareSum(es, total) * total == Total(es)
    ensures Blend(es, total) * total == Mass(es)
  {
    if es != [] {
      var front, e := es[..|es| - 1], es[|es| - 1];
      SharesTimesTotal(front, total);
      Quotient(e.weight, total);
      Scaled(Share(e, total), e.score, total, e.weight);
      Distribute(ShareSum(front, total), Share(e, total), total);
      Distribute(Blend(front, total), Share(e, total) * e.score, total);
    }
  }

  lemma Distribute(a: real, b: real, t: real)
    ensures (a + b) * t == a * t + b * t
  {
  }

  /** Redistributed weights sum to 1 and keep the ratios of the base weights. */
  lemma WeightsRedistributed(es: seq<Entry>, i: nat, j: nat)
    requires Total(es) != 0.0 && i < |es| && j < |es|
    ensures ShareSum(es, Total(es)) == 1.0
    ensures Share(es[i], Total(es)) * es[j].weight == Share(es[j], Total(es)) * es[i].weight
  {
    hide Total, ShareSum, Share, Blend, Mass;
    var t := Total(es);
    SharesTimesTotal(es, t);
    Cancel(ShareSum(es, t), t, Total(es));
    ShareOfTotal(es[i], t);
    ShareOfTotal(es[j], t);
    CrossRatio(Share(es[i], t), Share(es[j], t), es[i].weight, es[j].weight, t);
  }

  lemma ShareOfTotal(e: Entry, total: real)
    requires total != 0.0
    ensures Share(e, total) * total == e.weight
  {
    Quotient(e.weight, total);
  }

  lemma CrossRatio(p: real, q: real, w: real, v: real, t: real)
    requires p * t == w && q * t == v
    ensures p * v == q * w
  {
    assert p * (q * t) == q * (p * t);
  }

  lemma Cancel(x: real, t: real, p: real)
    requires t != 0.0 && p == x * t && p == t
    ensures x == 1.0
  {
    assert (x - 1.0) * t == 0.0;
  }

  ghost predicate NonNegative(es: seq<Entry>) {
    forall i | 0 <= i < |es| :: es[i].weight >= 0.0
  }

  lemma {:induction false} MassBounds(es: seq<Entry>, lo: real, hi: real)
    requires NonNegative(es) && forall i | 0 <= i < |es| :: lo <= es[i].score <= hi
    ensures lo * Total(es) <= Mass(es) <= hi * Total(es) && Total(es) >= 0.0
  {
    if es != [] {
      var front, e := es[..|es| - 1], es[|es| - 1];
      MassBounds(front, lo, hi);
      LowerStep(lo, Total(front), e.weight, e.score, Mass(front));
      UpperStep(hi, Total(front), e.weight, e.score, Mass(front));
    }
  }

  lemma LowerStep(lo: real, t: real, w: real, s: real, m: real)
    requires w >= 0.0 && lo <= s && lo * t <= m
    ensures lo * (t + w) <= m + w * s
  {
    WeighKeepsOrder(w, lo, s);
    assert lo * (t + w) == lo * t + w * lo;
  }

  lemma UpperStep(hi: real, t: real, w: real, s: real, m: real)
    requires w >= 0.0 && s <= hi && m <= hi * t
    ensures m + w * s <= hi * (t + w)
  {
    WeighKeepsOrder(w, s, hi);
    assert hi * (t + w) == hi * t + w * hi;
  }

  /** The blend lies between any bounds on the available scores, hence between the smallest and the largest. */
  lemma BlendBetween(es: seq<Entry>, lo: real, hi: real)
    requires NonNegative(es) && Total(es) != 0.0 && forall i | 0 <= i < |es| :: lo <= es[i].score <= hi
    ensures lo <= Blend(es, Total(es)) <= hi
  {
    hide Total, Blend, Mass, NonNegative;
    var t := Total(es);
    MassBounds(es, lo, hi);
    SharesTimesTotal(es, t);
    ScaleKeepsOrder(lo, Blend(es, t), t, lo * t, Mass(es));
    ScaleKeepsOrder(Blend(es, t), hi, t, Mass(es), hi * t);
  }

  ghost predicate RaisedTo(es: seq<Entry>, fs: seq<Entry>) {
    |es| == |fs| && forall i | 0 <= i < |es| :: es[i].weight == fs[i].weight && es[i].score <= fs[i].score
  }

  lemma {:induction false} MassMonotone(es: seq<Entry>, fs: seq<Entry>)
    requires NonNegative(es) && RaisedTo(es, fs)
    ensures Mass(es) <= Mass(fs) && Total(es) == Total(fs)
  {
    if es != [] {
      MassMonotone(es[..|es| - 1], fs[..|fs| - 1]);
      WeighKeepsOrder(es[|es| - 1].weight, es[|es| - 1].score, fs[|fs| - 1].score);
    }
  }

  /** Raising scores never lowers the blend. */
  lemma BlendMonotone(es: seq<Entry>, fs: seq<Entry>)
    requires NonNegative(es) && Total(es) > 0.0 && RaisedTo(es, fs)
    ensures Total(fs) == Total(es) && Blend(es, Total(es)) <= Blend(fs, Total(fs))
  {
    hide Total, Blend, Mass, NonNegative, RaisedTo;
    MassMonotone(es, fs);
    var t := Total(es);
    SharesTimesTotal(es, t);
    SharesTimesTotal(fs, t);
    ScaleKeepsOrder(Blend(es, t), Blend(fs, t), t, Mass(es), Mass(fs));
  }

  lemma SumsNext(es: seq<Entry>, e: Entry)
    ensures Total(es + [e]) == Total(es) + e.weight
    ensures Mass(es + [e]) == Mass(es) + e.weight * e.score
  {
    assert (es + [e])[..|es|] == es;
  }

  lemma {:induction false} SumsSplit(a: seq<Entry>, e: Entry, b: seq<Entry>)
    ensures Total(a + [e] + b) == Total(a + b) + e.weight
    ensures Mass(a + [e] + b) == Mass(a + b) + e.weight * e.score
  {
    hide *;
    if b == [] {
      assert a + [e] + b == a + [e] && a + b == a;
      SumsNext(a, e);
    } else {
      var front, x := b[..|b| - 1], b[|b| - 1];
      SumsSplit(a, e, front);
      SumsNext(a + [e] + front, x);
      SumsNext(a + front, x);
      assert a + [e] + b == a + [e] + front + [x] && a + b == a + front + [x];
    }
  }

  /** Switching an engine off raises the blend exactly when the engine's score is below the blend. */
  lemma RemovalRaisesIff(a: seq<Entry>, e: Entry, b: seq<Entry>)
    requires e.weight > 0.0 && Total(a + b) > 0.0
    ensures Total(a + [e] + b) > 0.0
    ensures var es := a + [e] + b;
            (Blend(a + b, Total(a + b)) > Blend(es, Total(es)) <==> e.score < Blend(es, Total(es)))
            && (Blend(a + b, Total(a + b)) < Blend(es, Total(es)) <==> e.score > Blend(es, Total(es)))
  {
    hide Total, Blend, Mass;
    SumsSplit(a, e, b);
    var es, rest := a + [e] + b, a + b;
    var t, u := Total(es), Total(rest);
    SharesTimesTotal(es, t);
    SharesTimesTotal(rest, u);
    PullOnAverage(Blend(es, t), Blend(rest, u), e.score, e.weight, t, u, Mass(rest));
  }

  /** An average `x` over weight `t` and the average `y` over weight `u` without the element of score `s`. */
  lemma PullOnAverage(x: real, y: real, s: real, w: real, t: real, u: real, mass: real)
    requires w > 0.0 && u > 0.0 && t == u + w && y * u == mass && x * t == mass + w * s
    ensures y > x <==> s < x
    ensures y < x <==> s > x
  {
    var p := x * u;
    assert x * t == p + x * w;
    ScaleKeepsOrder(x, y, u, p, mass);
    ScaleKeepsOrder(y, x, u, mass, p);
    ScaleKeepsOrder(s, x, w, w * s, x * w);
    ScaleKeepsOrder(x, s, w, x * w, w * s);
  }

  /* ---- the scorer ---- */

  function Clip(x: real): real {
    if x < 0.0 then 0.0 else if x > 1.0 then 1.0 else x
  }

  class EngineScores {
    var scores: map<Engine, real>
    var attackType: Option<string>
    var triggeredRules: seq<string>
    var maliciousIp: bool
    var maliciousJa3: bool

    constructor (scores: map<Engine, real>, attackType: Option<string>, rules: seq<string>, ip: bool, ja3: bool)
      ensures this.scores == scores && this.attackType == attackType && triggeredRules == rules
              && maliciousIp == ip && maliciousJa3 == ja3
    {
      this.scores, this.attackType, triggeredRules, maliciousIp, maliciousJa3 := scores, attackType, rules, ip, ja3;
    }

    function Available(c: Config): seq<Entry>
      reads this
    {
      Entries(c, scores, attackType)
    }
  }

  function EntryOf(c: Config, scores: map<Engine, real>, attackType: Option<string>, e: Engine): seq<Entry> {
    if e in scores then [Entry(e, WeightOf(c, attackType, e), scores[e])] else []
  }

  /** The engines that have a score, in the scorer's order. */
  function Entries(c: Config, scores: map<Engine, real>, attackType: Option<string>): seq<Entry> {
    EntryOf(c, scores, attackType, Supervised) + EntryOf(c, scores, attackType, IsolationForest)
    + EntryOf(c, scores, attackType, Lstm) + EntryOf(c, scores, attackType, Rules)
    + EntryOf(c, scores, attackType, Baseline)
  }

  /** The ablation of the replay script: one score set to none, the attack type kept. */
  lemma AblationRemovesEntry(c: Config, scores: map<Engine, real>, attackType: Option<string>, x: Engine)
    returns (a: seq<Entry>, b: seq<Entry>)
    requires x in scores
    ensures Entries(c, scores, attackType) == a + [Entry(x, WeightOf(c, attackType, x), scores[x])] + b
    ensures Entries(c, scores - {x}, attackType) == a + b
  {
    hide EntryOf;
    forall y: Engine
      ensures EntryOf(c, scores - {x}, attackType, y) == if y == x then [] else EntryOf(c, scores, attackType, y)
    {
      EntryWithout(c, scores, attackType, x, y);
    }
    var v, i, l, r, n := EntryOf(c, scores, attackType, Supervised), EntryOf(c, scores, attackType, IsolationForest),
                         EntryOf(c, scores, attackType, Lstm), EntryOf(c, scores, attackType, Rules),
                         EntryOf(c, scores, attackType, Baseline);
    EntryPresent(c, scores, attackType, x);
    hide Entries;
    EntriesAre(c, scores, attackType);
    EntriesAre(c, scores - {x}, attackType);
    Regroup(v, i, l, r, n);
    match x
    case Supervised => a, b := [], i + l + r + n;
    case IsolationForest => a, b := v, l + r + n;
    case Lstm => a, b := v + i, r + n;
    case Rules => a, b := v + i + l, n;
    case Baseline => a, b := v + i + l + r, [];
  }

  lemma EntriesAre(c: Config, scores: map<Engine, real>, attackType: Option<string>)
    ensures Entries(c, scores, attackType)
         == EntryOf(c, scores, attackType, Supervised) + EntryOf(c, scores, attackType, IsolationForest)
            + EntryOf(c, scores, attackType, Lstm) + EntryOf(c, scores, attackType, Rules)
            + EntryOf(c, scores, attackType, Baseline)
  {
  }

  /** Five pieces in a row, taken apart at each of them. */
  lemma Regroup(v: seq<Entry>, i: seq<Entry>, l: seq<Entry>, r: seq<Entry>, n: seq<Entry>)
    ensures v + i + l + r + n == [] + v + (i + l + r + n) && [] + i + l + r + n == [] + (i + l + r + n)
    ensures v + i + l + r + n == v + i + (l + r + n) && v + [] + l + r + n == v + (l + r + n)
    ensures v + i + l + r + n == v + i + l + (r + n) && v + i + [] + r + n == v + i + (r + n)
    ensures v + i + l + [] + n == v + i + l + n
    ensures v + i + l + r + [] == v + i + l + r + [] && v + i + l + r + n == v + i + l + r + n + []
  {
  }

  lemma EntryWithout(c: Config, scores: map<Engine, real>, attackType: Option<string>, x: Engine, y: Engine)
    ensures EntryOf(c, scores - {x}, attackType, y) == if y == x then [] else EntryOf(c, scores, attackType, y)
  {
  }

  lemma EntryPresent(c: Config, scores: map<Engine, real>, attackType: Option<string>, x: Engine)
    requires x in scores
    ensures EntryOf(c, scores, attackType, x) == [Entry(x, WeightOf(c, attackType, x), scores[x])]
  {
  }

  /** An engine of positive weight pushes the blend up exactly when it scores above the blend. */
  lemma AblationShowsThePush(c: Config, scores: map<Engine, real>, attackType: Option<string>, x: Engine)
    requires x in scores && WeightOf(c, attackType, x) > 0.0 && Total(Entries(c, scores - {x}, attackType)) > 0.0
    ensures var es, fs := Entries(c, scores, attackType), Entries(c, scores - {x}, attackType);
            Total(es) > 0.0
            && (Blend(fs, Total(fs)) > Blend(es, Total(es)) <==> scores[x] < Blend(es, Total(es)))
            && (Blend(fs, Total(fs)) < Blend(es, Total(es)) <==> scores[x] > Blend(es, Total(es)))
  {
    hide Total, Blend, Entries, WeightOf;
    var a, b := AblationRemovesEntry(c, scores, attackType, x);
    RemovalRaisesIff(a, Entry(x, WeightOf(c, attackType, x), scores[x]), b);
  }

  datatype Result = Result(score: real, isAnomaly: bool, active: seq<Entry>, calibrated: real)

  predicate HasOpinion(es: seq<Entry>) {
    es != [] && Total(es) != 0.0
  }

  function IntelRules(ip: bool, ja3: bool): seq<string> {
    (if ip then [TI_IP] else []) + if ja3 then [TI_JA3] else []
  }

  predicate CriticalHit(c: Config, rules: seq<string>) {
    exists r | r in rules :: r in c.critical
  }

  /** Blend, boost and override for engines that have an opinion; `rules` already holds the intelligence rules. */
  function FinalScore(c: Config, es: seq<Entry>, rules: seq<string>, intel: bool): real
    requires HasOpinion(es)
  {
    var blend := Clip(Blend(es, Total(es)));
    if CriticalHit(c, rules) then 1.0
    else if intel then (if blend + BOOST < 1.0 then blend + BOOST else 1.0)
    else blend
  }

  /** The weight of an engine, written out: the override for the attack type if it names one and is not benign. */
  ghost predicate IsWeight(w: real, c: Config, attackType: Option<string>, e: Engine) {
    var o := if attackType.Some? && attackType.value in c.overrides then c.overrides[attackType.value] else map[];
    w == if e in o && !c.benign(attackType.value) then o[e] else c.base(e)
  }

  ghost predicate EnginesDiffer(es: seq<Entry>) {
    forall i, j | 0 <= i < j < |es| :: es[i].engine != es[j].engine
  }

  /** The entries are those of the engines with a score, each once, with that score and the engine's weight. */
  ghost predicate EntriesOf(es: seq<Entry>, c: Config, scores: map<Engine, real>, attackType: Option<string>) {
    && (forall e | e in es ::
         e.engine in scores && e.score == scores[e.engine] && IsWeight(e.weight, c, attackType, e.engine))
    && (forall g | g in scores :: exists e | e in es :: e.engine == g)
    && EnginesDiffer(es)
  }

  lemma WeightOfIs(c: Config, attackType: Option<string>, e: Engine)
    ensures IsWeight(WeightOf(c, attackType, e), c, attackType, e)
  {
  }

  lemma OneMoreEngine(es: seq<Entry>, c: Config, scores: map<Engine, real>, attackType: Option<string>, g: Engine)
    requires EnginesDiffer(es) && forall e | e in es :: e.engine != g
    ensures EnginesDiffer(es + EntryOf(c, scores, attackType, g))
    ensures forall e :: e in es + EntryOf(c, scores, attackType, g) <==>
              e in es || (g in scores && e == Entry(g, WeightOf(c, attackType, g), scores[g]))
  {
    hide WeightOf;
  }

  /** Who is in the list, and nobody twice. */
  lemma AvailableMembers(c: Config, scores: map<Engine, real>, attackType: Option<string>)
    ensures EnginesDiffer(Entries(c, scores, attackType))
    ensures forall e :: e in Entries(c, scores, attackType) <==>
              e.engine in scores && e == Entry(e.engine, WeightOf(c, attackType, e.engine), scores[e.engine])
  {
    hide EntryOf, EnginesDiffer, WeightOf, Entries;
    EntriesAre(c, scores, attackType);
    var none: seq<Entry> := [];
    assert EnginesDiffer(none) by { NoEngines(); }
    var e1 := none + EntryOf(c, scores, attackType, Supervised);
    var e2 := e1 + EntryOf(c, scores, attackType, IsolationForest);
    var e3 := e2 + EntryOf(c, scores, attackType, Lstm);
    var e4 := e3 + EntryOf(c, scores, attackType, Rules);
    OneMoreEngine(none, c, scores, attackType, Supervised);
    OneMoreEngine(e1, c, scores, attackType, IsolationForest);
    OneMoreEngine(e2, c, scores, attackType, Lstm);
    OneMoreEngine(e3, c, scores, attackType, Rules);
    OneMoreEngine(e4, c, scores, attackType, Baseline);
    assert e1 == EntryOf(c, scores, attackType, Supervised);
    var es := e4 + EntryOf(c, scores, attackType, Baseline);
    assert Entries(c, scores, attackType) == es;
    forall e: Entry
      ensures e in es <==>
              e.engine in scores && e == Entry(e.engine, WeightOf(c, attackType, e.engine), scores[e.engine])
    {
      assert e !in none;
      match e.engine
      case Supervised =>
      case IsolationForest =>
      case Lstm =>
      case Rules =>
      case Baseline =>
    }
  }

  lemma NoEngines()
    ensures EnginesDiffer([])
  {
  }

  lemma AvailableAre(c: Config, scores: map<Engine, real>, attackType: Option<string>)
    ensures EntriesOf(Entries(c, scores, attackType), c, scores, attackType)
  {
    hide WeightOf, IsWeight, Entries;
    AvailableMembers(c, scores, attackType);
    forall g: Engine ensures IsWeight(WeightOf(c, attackType, g), c, attackType, g) {
      WeightOfIs(c, attackType, g);
    }
    forall g | g in scores ensures exists e | e in Entries(c, scores, attackType) :: e.engine == g {
      assert Entry(g, WeightOf(c, attackType, g), scores[g]) in Entries(c, scores, attackType);
    }
  }

  /** `x` clipped to [0, 1]. */
  ghost predicate IsClipped(y: real, x: real) {
    0.0 <= y <= 1.0 && (y < 1.0 ==> x <= y) && (y > 0.0 ==> y <= x)
  }

  /**
   * The score, written out: 1 when a critical rule triggered; otherwise the weighted mean of the scores clipped to
   * [0, 1], and 0.30 more for known malicious traffic, but at most 1.
   */
  ghost predicate IsScore(score: real, c: Config, es: seq<Entry>, rules: seq<string>, intel: bool) {
    if exists r | r in rules :: r in c.critical then score == 1.0
    else
      exists mean: real, blend: real ::
        && mean * Total(es) == Mass(es) && IsClipped(blend, mean)
        && score == if !intel then blend else if blend > 0.70 then 1.0 else blend + 0.30
  }

  lemma FinalScoreIs(c: Config, es: seq<Entry>, rules: seq<string>, intel: bool)
    requires HasOpinion(es)
    ensures IsScore(FinalScore(c, es, rules, intel), c, es, rules, intel)
  {
    hide Total, Blend, Mass;
    SharesTimesTotal(es, Total(es));
    assert IsClipped(Clip(Blend(es, Total(es))), Blend(es, Total(es)));
  }

  class EnsembleScorer {
    const config: Config

    constructor (config: Config)
      ensures this.config == config
    {
      this.config := config;
    }

    method BlendOf(es: seq<Entry>, total: real) returns (combined: real)
      requires total != 0.0
      ensures combined == Blend(es, total)
    {
      combined := 0.0;
      var i := 0;
      while i < |es|
        invariant i <= |es| && combined == Blend(es[..i], total)
      {
        assert es[..i + 1][..i] == es[..i];
        combined := combined + es[i].weight / total * es[i].score;
        i := i + 1;
      }
      assert es[..i] == es;
    }

    method Score(s: EngineScores) returns (r: Result)
      modifies s`triggeredRules
      ensures r.active == s.Available(config)
      ensures !HasOpinion(r.active) ==> r.score == 0.0 && r.calibrated == 0.0 && !r.isAnomaly
                                        && s.triggeredRules == old(s.triggeredRules)
      ensures HasOpinion(r.active) ==>
                s.triggeredRules == old(s.triggeredRules) + IntelRules(s.maliciousIp, s.maliciousJa3)
      ensures HasOpinion(r.active) ==>
                && r.score == FinalScore(config, r.active, s.triggeredRules, s.maliciousIp || s.maliciousJa3)
                && r.calibrated == config.calibrate(r.score)
                && r.isAnomaly == (CriticalHit(config, s.triggeredRules) || r.calibrated >= config.threshold)
      ensures EntriesOf(r.active, config, s.scores, s.attackType)
      ensures r.active == [] || Total(r.active) == 0.0 ==> r.score == 0.0 && r.calibrated == 0.0 && !r.isAnomaly
      ensures r.active != [] && Total(r.active) != 0.0 ==>
                && IsScore(r.score, config, r.active, s.triggeredRules, s.maliciousIp || s.maliciousJa3)
                && s.triggeredRules == old(s.triggeredRules)
                                       + (if s.maliciousIp then ["threat_intel_malicious_ip"] else [])
                                       + (if s.maliciousJa3 then ["threat_intel_malicious_ja3"] else [])
    {
      hide Entries, EntriesOf, IsScore, Total, Blend;
      var available := s.Available(config);
      AvailableAre(config, s.scores, s.attackType);
      if available == [] {
        return Result(0.0, false, available, 0.0);
      }
      var total := Total(available);
      if total == 0.0 {
        return Result(0.0, false, available, 0.0);
      }
      var combined := BlendOf(available, total);
      combined := Clip(combined);
      if s.maliciousIp || s.maliciousJa3 {
        combined := if combined + BOOST < 1.0 then combined + BOOST else 1.0;
        if s.maliciousIp {
          s.triggeredRules := s.triggeredRules + [TI_IP];
        }
        if s.maliciousJa3 {
          s.triggeredRules := s.triggeredRules + [TI_JA3];
        }
      }
      var criticalHit := CriticalHit(config, s.triggeredRules);
      if criticalHit {
        combined := 1.0;
      }
      FinalScoreIs(config, available, s.triggeredRules, s.maliciousIp || s.maliciousJa3);
      var calibrated := config.calibrate(combined);
      r := Result(combined, criticalHit || calibrated >= config.threshold, available, calibrated);
    }
  }

  /** With scores in [0, 1] clipping changes nothing, and the result lies in [0, 1] and not below the blend. */
  lemma FinalScoreInRange(c: Config, es: seq<Entry>, rules: seq<string>, intel: bool)
    requires HasOpinion(es) && NonNegative(es) && forall i | 0 <= i < |es| :: 0.0 <= es[i].score <= 1.0
    ensures Clip(Blend(es, Total(es))) == Blend(es, Total(es)) <= FinalScore(c, es, rules, intel) <= 1.0
    ensures !intel && !CriticalHit(c, rules) ==> FinalScore(c, es, rules, intel) == Blend(es, Total(es))
  {
    hide Blend, Total;
    BlendBetween(es, 0.0, 1.0);
  }

  /** Raising scores never lowers the final score either. */
  lemma FinalScoreMonotone(c: Config, es: seq<Entry>, fs: seq<Entry>, rules: seq<string>, intel: bool)
    requires es != [] && NonNegative(es) && Total(es) > 0.0 && RaisedTo(es, fs)
    ensures HasOpinion(fs) && FinalScore(c, es, rules, intel) <= FinalScore(c, fs, rules, intel)
  {
    hide Blend, Total;
    BlendMonotone(es, fs);
  }

  /** The engines have an opinion exactly when one that has a score has a positive weight. */
  lemma {:induction false} OpinionIffWeight(es: seq<Entry>)
    requires NonNegative(es)
    ensures Total(es) >= 0.0
    ensures HasOpinion(es) <==> exists i | 0 <= i < |es| :: es[i].weight > 0.0
  {
    if es != [] {
      var front, e := es[..|es| - 1], es[|es| - 1];
      OpinionIffWeight(front);
      assert es == front + [e];
      assert forall i | 0 <= i < |front| :: es[i] == front[i];
      assert front == [] ==> Total(front) == 0.0;
    }
  }

  /** The rule engine alone, with weight 0 by the base weights or an override, is no opinion, whatever it says. */
  lemma WeightlessRulesAreNoOpinion(c: Config, attackType: Option<string>, score: real)
    requires WeightOf(c, attackType, Rules) == 0.0
    ensures Entries(c, map[Rules := score], attackType) == [Entry(Rules, 0.0, score)]
    ensures !HasOpinion(Entries(c, map[Rules := score], attackType))
  {
    hide WeightOf;
    var es := [Entry(Rules, 0.0, score)];
    assert Total(es[..0]) == 0.0;
    assert Total(es) == Total(es[..0]) + es[0].weight;
  }

  /**
   * A critical rule makes the flow an anomaly exactly when the engines have an opinion at all: with only scores of
   * weight 0, the override is never reached.
   */
  method CriticalRuleAlertsIff(scorer: EnsembleScorer, s: EngineScores) returns (r: Result)
    requires CriticalHit(scorer.config, s.triggeredRules)
    modifies s`triggeredRules
    ensures r.isAnomaly <==> HasOpinion(old(s.Available(scorer.config)))
    ensures r.score == if r.isAnomaly then 1.0 else 0.0
  {
    hide Blend, Total, Entries, HasOpinion;
    r := scorer.Score(s);
    HitStays(scorer.config, old(s.triggeredRules), IntelRules(s.maliciousIp, s.maliciousJa3));
  }

  /** The program's own case: only the rule engine has a score, its weight is 0, and a critical rule raises no alert. */
  method CriticalRuleIsSilenced(rule: string) returns (scorer: EnsembleScorer, r: Result)
    ensures WeightOf(scorer.config, None, Rules) == 0.0 == scorer.config.base(Rules) && scorer.config.overrides == map[]
    ensures CriticalHit(scorer.config, [rule]) && r.score == 0.0 && !r.isAnomaly
  {
    hide Total, Blend;
    scorer := new EnsembleScorer(Config((e: Engine) => if e == Rules then 0.0 else 0.25, map[],
                                        (name: string) => false, {rule}, 0.55, (x: real) => x));
    var s := new EngineScores(map[Rules := 1.0], None, [rule], false, false);
    WeightlessRulesAreNoOpinion(scorer.config, None, 1.0);
    assert CriticalHit(scorer.config, [rule]) by { assert rule in [rule]; }
    r := CriticalRuleAlertsIff(scorer, s);
  }

  lemma HitStays(c: Config, rules: seq<string>, more: seq<string>)
    requires CriticalHit(c, rules)
    ensures CriticalHit(c, rules + more)
  {
    var r :| r in rules && r in c.critical;
    assert r in rules + more;
  }

  /** Scoring appends to the shared list of rules, but scoring again gives the same score. */
  lemma ScoringTwiceAgrees(c: Config, es: seq<Entry>, rules: seq<string>, ip: bool, ja3: bool)
    requires HasOpinion(es)
    ensures var once, twice := rules + IntelRules(ip, ja3), rules + IntelRules(ip, ja3) + IntelRules(ip, ja3);
            FinalScore(c, es, twice, ip || ja3) == FinalScore(c, es, once, ip || ja3)
            && (CriticalHit(c, twice) <==> CriticalHit(c, once))
  {
    hide Blend, Total;
    var more := IntelRules(ip, ja3);
    assert forall r :: r in rules + more + more <==> r in rules + more;
  }
}
