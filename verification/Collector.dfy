/**
 * The live baseline collector. Observers append samples under a lock; a full window is handed to a training
 * thread, and samples that arrive meanwhile are dropped and counted. Each lock section is one atomic step, and
 * observers and training jobs take steps in any order.
 */
module Collector {
  import opened Sets
  import opened Wrappers

  const HARD_CAP := 500000

  datatype Sample = Sample(hostVec: seq<real>, srcIp: string, dstIp: string, dstPort: int, protocol: string, ts: real)

  datatype Trigger = Trigger(minVectors: int, minIps: int, minElapsed: real, minEntropy: real)

  /** The trigger, with Shannon entropy as any function of the port counts. */
  datatype Config = Config(trigger: Trigger, entropy: map<int, nat> -> real)

  function Max(x: real, y: real): real {
    if x < y then y else x
  }

  predicate ShouldFire(c: Config, n: nat, ips: nat, elapsed: real, counts: map<int, nat>) {
    && n >= c.trigger.minVectors
    && ips >= c.trigger.minIps
    && elapsed >= c.trigger.minElapsed
    && c.entropy(counts) >= c.trigger.minEntropy
  }

  /* ---- counting from scratch ---- */

  function Each<T, U>(xs: seq<T>, f: T -> U): (r: seq<U>)
    ensures |r| == |xs| && forall i | 0 <= i < |r| :: r[i] == f(xs[i])
  {
    seq(|xs|, i requires 0 <= i < |xs| => f(xs[i]))
  }

  ghost function CountOf<T(!new)>(xs: seq<T>): map<T, nat> {
    map x | x in xs :: multiset(xs)[x]
  }

  function Bump<T(==)>(counts: map<T, nat>, x: T): map<T, nat> {
    counts[x := (if x in counts then counts[x] else 0) + 1]
  }

  lemma CountNext<T(!new)>(xs: seq<T>, x: T)
    ensures CountOf(xs + [x]) == Bump(CountOf(xs), x)
    ensures SetOf(xs + [x]) == SetOf(xs) + {x}
  {
  }

  lemma EachNext<T, U>(xs: seq<T>, x: T, f: T -> U)
    ensures Each(xs + [x], f) == Each(xs, f) + [f(x)]
  {
  }

  const PORT := (x: Sample) => x.dstPort
  const SOURCE := (x: Sample) => x.srcIp
  const PROTOCOL := (x: Sample) => x.protocol

  ghost function PortCounts(xs: seq<Sample>): map<int, nat> {
    CountOf(Each(xs, PORT))
  }

  ghost function Sources(xs: seq<Sample>): set<string> {
    set x | x in xs :: x.srcIp
  }

  lemma SourcesAre(xs: seq<Sample>)
    ensures Sources(xs) == SetOf(Each(xs, SOURCE))
  {
    forall ip | ip in Sources(xs) ensures ip in SetOf(Each(xs, SOURCE)) {
      var x :| x in xs && x.srcIp == ip;
      var i :| 0 <= i < |xs| && xs[i] == x;
      assert Each(xs, SOURCE)[i] == ip;
    }
    forall ip | ip in SetOf(Each(xs, SOURCE)) ensures ip in Sources(xs) {
      var i :| 0 <= i < |xs| && Each(xs, SOURCE)[i] == ip;
      assert xs[i] in xs;
    }
  }

  lemma SourcesNext(xs: seq<Sample>, x: Sample)
    ensures Sources(xs + [x]) == Sources(xs) + {x.srcIp}
  {
    forall ip | ip in Sources(xs) ensures ip in Sources(xs + [x]) {
      var y :| y in xs && y.srcIp == ip;
      assert y in xs + [x];
    }
    assert x in xs + [x];
  }

  /**
   * Whether a window with these samples, opened at `start`, is due, counted from scratch: by its size, or because it
   * has enough samples, sources, time (a clock that went back counts as none) and entropy.
   */
  ghost predicate Due(c: Config, xs: seq<Sample>, start: real)
    requires xs != []
  {
    var end := xs[|xs| - 1].ts;
    |xs| >= 500_000
    || (|xs| >= c.trigger.minVectors && |Sources(xs)| >= c.trigger.minIps
        && (if end < start then 0.0 else end - start) >= c.trigger.minElapsed
        && c.entropy(PortCounts(xs)) >= c.trigger.minEntropy)
  }

  lemma DueIs(c: Config, xs: seq<Sample>, start: real)
    requires xs != []
    ensures Due(c, xs, start) <==>
            |xs| >= HARD_CAP
            || ShouldFire(c, |xs|, |Sources(xs)|, Max(0.0, xs[|xs| - 1].ts - start), PortCounts(xs))
  {
    hide PortCounts, Sources;
  }

  /* ---- the abstract machine: no incremental counters ---- */

  datatype Reason = HardCap | CompositeTrigger

  datatype Window = Window(samples: seq<Sample>, start: real, end: real, reason: Reason)

  /** The thread that owns a fired window builds provenance, trains, or is between its two last lock sections. */
  datatype Stage = Preparing | Training | Ending

  datatype Job = Job(window: Window, stage: Stage)

  datatype Fate = Taken(sample: Sample) | Dropped(sample: Sample)

  /** The locked fields, the live jobs, and what a run did so far. */
  datatype State = State(buffer: seq<Sample>, windowStart: real, inFlight: bool, dropped: nat, jobs: seq<Job>,
                         fired: seq<Window>, fates: seq<Fate>, reported: nat)

  datatype Event = Observe(sample: Sample) | Abort(job: nat) | Start(job: nat) | Report(job: nat) | Finish(job: nat)

  ghost predicate At(s: State, j: nat, stage: Stage) {
    j < |s.jobs| && s.jobs[j].stage == stage
  }

  function Move(jobs: seq<Job>, j: nat, stage: Stage): seq<Job>
    requires j < |jobs|
  {
    jobs[j := jobs[j].(stage := stage)]
  }

  function Retire(jobs: seq<Job>, j: nat): seq<Job>
    requires j < |jobs|
  {
    jobs[..j] + jobs[j + 1..]
  }

  ghost function ObserveStep(c: Config, s: State, x: Sample): State {
    if s.inFlight then s.(dropped := s.dropped + 1, fates := s.fates + [Dropped(x)])
    else
      var b := s.buffer + [x];
      if Due(c, b, s.windowStart) then
        var w := Window(b, s.windowStart, x.ts, if |b| >= HARD_CAP then HardCap else CompositeTrigger);
        s.(buffer := [], windowStart := x.ts, inFlight := true, jobs := s.jobs + [Job(w, Preparing)],
           fired := s.fired + [w], fates := s.fates + [Taken(x)])
      else s.(buffer := b, fates := s.fates + [Taken(x)])
  }

  /** One lock section of one thread; an event whose thread is not at that point changes nothing. */
  ghost function Apply(c: Config, s: State, e: Event): State {
    match e
    case Observe(x) => ObserveStep(c, s, x)
    case Abort(j) => if At(s, j, Preparing) then s.(jobs := Retire(s.jobs, j), inFlight := false) else s
    case Start(j) => if At(s, j, Preparing) then s.(jobs := Move(s.jobs, j, Training)) else s
    case Report(j) =>
      if At(s, j, Training) then s.(jobs := Move(s.jobs, j, Ending), reported := s.reported + s.dropped, dropped := 0)
      else s
    case Finish(j) => if At(s, j, Ending) then s.(jobs := Retire(s.jobs, j), inFlight := false) else s
  }

  function Init(start: real): State {
    State([], start, false, 0, [], [], [], 0)
  }

  ghost function Run(c: Config, start: real, events: seq<Event>): State {
    if events == [] then Init(start)
    else Apply(c, Run(c, start, events[..|events| - 1]), events[|events| - 1])
  }

  /* ---- what every interleaving keeps ---- */

  function Flatten(ws: seq<Window>): seq<Sample> {
    if ws == [] then [] else Flatten(ws[..|ws| - 1]) + ws[|ws| - 1].samples
  }

  function TakenOf(fates: seq<Fate>): seq<Sample> {
    if fates == [] then []
    else
      var f := fates[|fates| - 1];
      TakenOf(fates[..|fates| - 1]) + (if f.Taken? then [f.sample] else [])
  }

  function DroppedOf(fates: seq<Fate>): seq<Sample> {
    if fates == [] then []
    else
      var f := fates[|fates| - 1];
      DroppedOf(fates[..|fates| - 1]) + (if f.Dropped? then [f.sample] else [])
  }

  ghost predicate NotDueBefore(c: Config, xs: seq<Sample>, start: real, n: nat) {
    forall k | 0 < k < n && k <= |xs| :: !Due(c, xs[..k], start)
  }

  /** A fired window is due, was not due any earlier, and says why and when it ended. */
  ghost predicate FiresFirst(c: Config, w: Window) {
    && 0 < |w.samples| <= 500_000
    && Due(c, w.samples, w.start)
    && NotDueBefore(c, w.samples, w.start, |w.samples|)
    && w.end == w.samples[|w.samples| - 1].ts
    && (w.reason == HardCap <==> |w.samples| == 500_000)
  }

  function OpenedAt(start: real, fired: seq<Window>): real {
    if fired == [] then start else fired[|fired| - 1].end
  }

  ghost predicate Windows(c: Config, start: real, fired: seq<Window>) {
    forall i | 0 <= i < |fired| :: FiresFirst(c, fired[i]) && fired[i].start == OpenedAt(start, fired[..i])
  }

  ghost predicate OneJob(s: State) {
    && |s.jobs| <= 1
    && (s.inFlight <==> |s.jobs| == 1)
    && (s.inFlight ==> s.buffer == [] && s.fired != [] && s.jobs[0].window == s.fired[|s.fired| - 1])
  }

  ghost predicate Filling(c: Config, start: real, s: State) {
    && |s.buffer| < HARD_CAP
    && s.windowStart == OpenedAt(start, s.fired)
    && NotDueBefore(c, s.buffer, s.windowStart, |s.buffer| + 1)
  }

  ghost predicate Accounted(s: State) {
    && TakenOf(s.fates) == Flatten(s.fired) + s.buffer
    && |DroppedOf(s.fates)| == s.reported + s.dropped
  }

  lemma NextTaken(fates: seq<Fate>, f: Fate)
    ensures TakenOf(fates + [f]) == TakenOf(fates) + (if f.Taken? then [f.sample] else [])
    ensures DroppedOf(fates + [f]) == DroppedOf(fates) + (if f.Dropped? then [f.sample] else [])
  {
    assert (fates + [f])[..|fates|] == fates;
  }

  lemma NextFlatten(ws: seq<Window>, w: Window)
    ensures Flatten(ws + [w]) == Flatten(ws) + w.samples
  {
    assert (ws + [w])[..|ws|] == ws;
  }

  lemma AccountedStep(c: Config, s: State, e: Event)
    requires Accounted(s)
    ensures Accounted(Apply(c, s, e))
  {
    hide Due, Flatten, TakenOf, DroppedOf;
    if e.Observe? {
      NextTaken(s.fates, Taken(e.sample));
      NextTaken(s.fates, Dropped(e.sample));
      var t := Apply(c, s, e);
      if t.fired != s.fired {
        NextFlatten(s.fired, t.fired[|s.fired|]);
        assert t.fired == s.fired + [t.fired[|s.fired|]];
      }
    }
  }

  lemma OneJobStep(c: Config, s: State, e: Event)
    requires OneJob(s)
    ensures OneJob(Apply(c, s, e))
  {
    hide Due;
  }

  lemma NotDueNext(c: Config, xs: seq<Sample>, x: Sample, start: real)
    requires NotDueBefore(c, xs, start, |xs| + 1)
    ensures NotDueBefore(c, xs + [x], start, |xs| + 1)
    ensures !Due(c, xs + [x], start) ==> NotDueBefore(c, xs + [x], start, |xs| + 2)
  {
    hide Due;
    forall k | 0 < k <= |xs|
      ensures !Due(c, (xs + [x])[..k], start)
    {
      assert (xs + [x])[..k] == xs[..k];
    }
    assert (xs + [x])[..|xs| + 1] == xs + [x];
  }

  lemma FillingStep(c: Config, start: real, s: State, e: Event)
    requires Filling(c, start, s)
    ensures Filling(c, start, Apply(c, s, e))
  {
    hide NotDueBefore;
    if e.Observe? {
      NotDueNext(c, s.buffer, e.sample, s.windowStart);
      NothingIsNotDue(c, e.sample.ts);
    }
  }

  lemma NothingIsNotDue(c: Config, start: real)
    ensures NotDueBefore(c, [], start, 1)
  {
  }

  lemma NewWindowFiresFirst(c: Config, start: real, s: State, x: Sample)
    requires Filling(c, start, s) && Due(c, s.buffer + [x], s.windowStart)
    ensures FiresFirst(c, Window(s.buffer + [x], s.windowStart, x.ts,
                                 if |s.buffer + [x]| >= HARD_CAP then HardCap else CompositeTrigger))
  {
    hide NotDueBefore, Due;
    NotDueNext(c, s.buffer, x, s.windowStart);
  }

  lemma WindowsNext(c: Config, start: real, fired: seq<Window>, w: Window)
    requires Windows(c, start, fired) && FiresFirst(c, w) && w.start == OpenedAt(start, fired)
    ensures Windows(c, start, fired + [w])
  {
    hide FiresFirst;
    var all := fired + [w];
    forall i | 0 <= i < |all|
      ensures FiresFirst(c, all[i]) && all[i].start == OpenedAt(start, all[..i])
    {
      assert all[..i] == fired[..i];
      if i == |fired| {
        assert fired[..i] == fired;
      }
    }
  }

  lemma WindowsStep(c: Config, start: real, s: State, e: Event)
    requires Filling(c, start, s) && Windows(c, start, s.fired)
    ensures Windows(c, start, Apply(c, s, e).fired)
  {
    hide FiresFirst, Windows, Due, NotDueBefore;
    if e.Observe? && !s.inFlight && Due(c, s.buffer + [e.sample], s.windowStart) {
      var b := s.buffer + [e.sample];
      NewWindowFiresFirst(c, start, s, e.sample);
      WindowsNext(c, start, s.fired,
                  Window(b, s.windowStart, e.sample.ts, if |b| >= HARD_CAP then HardCap else CompositeTrigger));
    }
  }

  /** Every interleaving: at most one training, an empty live window meanwhile, and nothing lost uncounted. */
  lemma {:induction false} RunSafe(c: Config, start: real, events: seq<Event>)
    ensures var s := Run(c, start, events);
            OneJob(s) && Filling(c, start, s) && Windows(c, start, s.fired) && Accounted(s)
  {
    if events == [] {
    } else {
      var before, e := events[..|events| - 1], events[|events| - 1];
      RunSafe(c, start, before);
      RunStepSafe(c, start, Run(c, start, before), e);
    }
  }

  lemma RunStepSafe(c: Config, start: real, s: State, e: Event)
    requires OneJob(s) && Filling(c, start, s) && Windows(c, start, s.fired) && Accounted(s)
    ensures var t := Apply(c, s, e); OneJob(t) && Filling(c, start, t) && Windows(c, start, t.fired) && Accounted(t)
  {
    hide *;
    OneJobStep(c, s, e);
    FillingStep(c, start, s, e);
    WindowsStep(c, start, s, e);
    AccountedStep(c, s, e);
  }

  function Observed(events: seq<Event>): seq<Sample> {
    if events == [] then []
    else
      var e := events[|events| - 1];
      Observed(events[..|events| - 1]) + (if e.Observe? then [e.sample] else [])
  }

  ghost function Fates(fates: seq<Fate>): multiset<Sample> {
    multiset(TakenOf(fates)) + multiset(DroppedOf(fates))
  }

  lemma FateNext(fates: seq<Fate>, f: Fate)
    ensures Fates(fates + [f]) == Fates(fates) + multiset{f.sample}
  {
    hide TakenOf, DroppedOf;
    NextTaken(fates, f);
  }

  lemma FateStep(c: Config, s: State, e: Event)
    ensures Fates(Apply(c, s, e).fates) == Fates(s.fates) + if e.Observe? then multiset{e.sample} else multiset{}
  {
    hide Fates, Due;
    if e.Observe? {
      FateNext(s.fates, Taken(e.sample));
      FateNext(s.fates, Dropped(e.sample));
    }
  }

  lemma {:induction false} EveryObservedSampleHasAFate(c: Config, start: real, events: seq<Event>)
    ensures multiset(Observed(events)) == Fates(Run(c, start, events).fates)
  {
    if events == [] {
    } else {
      hide Fates, Apply;
      var before, e := events[..|events| - 1], events[|events| - 1];
      EveryObservedSampleHasAFate(c, start, before);
      FateStep(c, Run(c, start, before), e);
    }
  }

  /** Conservation: each sample observed is once in the buffer, in a fired window or among the counted drops. */
  lemma SamplesConserved(c: Config, start: real, events: seq<Event>)
    ensures var s := Run(c, start, events);
            && multiset(Observed(events))
            == multiset(Flatten(s.fired)) + multiset(s.buffer) + multiset(DroppedOf(s.fates))
            && |Observed(events)| == |Flatten(s.fired)| + |s.buffer| + s.reported + s.dropped
  {
    hide Flatten, TakenOf, DroppedOf, Observed, Run;
    RunSafe(c, start, events);
    EveryObservedSampleHasAFate(c, start, events);
    var s := Run(c, start, events);
    assert multiset(TakenOf(s.fates)) == multiset(Flatten(s.fired)) + multiset(s.buffer);
    assert |multiset(Observed(events))| == |Observed(events)|;
  }

  /* ---- the drop counter ---- */

  /** Event `i` is a sample dropped because a training was in flight. */
  ghost predicate DropsAt(c: Config, start: real, events: seq<Event>, i: nat)
    requires i < |events|
  {
    events[i].Observe? && Run(c, start, events[..i]).inFlight
  }

  /** Event `i` is a trainer's report of the counter. */
  ghost predicate ReportsAt(c: Config, start: real, events: seq<Event>, i: nat)
    requires i < |events|
  {
    events[i].Report? && At(Run(c, start, events[..i]), events[i].job, Training)
  }

  ghost predicate ReportedAfter(c: Config, start: real, events: seq<Event>, i: nat) {
    exists k | i < k < |events| :: ReportsAt(c, start, events, k)
  }

  ghost function Unreported(c: Config, start: real, events: seq<Event>): set<nat> {
    set i: nat | i < |events| && DropsAt(c, start, events, i) && !ReportedAfter(c, start, events, i)
  }

  ghost function Reported(c: Config, start: real, events: seq<Event>): set<nat> {
    set i: nat | i < |events| && DropsAt(c, start, events, i) && ReportedAfter(c, start, events, i)
  }

  lemma EarlierEvents(c: Config, start: real, events: seq<Event>, e: Event, i: nat)
    requires i < |events|
    ensures DropsAt(c, start, events + [e], i) == DropsAt(c, start, events, i)
    ensures ReportsAt(c, start, events + [e], i) == ReportsAt(c, start, events, i)
  {
    assert (events + [e])[..i] == events[..i];
  }

  lemma LastEvent(c: Config, start: real, events: seq<Event>, e: Event)
    ensures DropsAt(c, start, events + [e], |events|) <==> e.Observe? && Run(c, start, events).inFlight
    ensures ReportsAt(c, start, events + [e], |events|) <==> e.Report? && At(Run(c, start, events), e.job, Training)
  {
    assert (events + [e])[..|events|] == events;
  }

  /** A report settles every drop before it; any other event leaves the earlier ones as they were. */
  lemma ReportedAfterNext(c: Config, start: real, events: seq<Event>, e: Event, i: nat)
    requires i < |events|
    ensures ReportedAfter(c, start, events + [e], i)
       <==> ReportedAfter(c, start, events, i) || ReportsAt(c, start, events + [e], |events|)
  {
    hide ReportsAt;
    forall k: nat | i < k < |events|
      ensures ReportsAt(c, start, events + [e], k) == ReportsAt(c, start, events, k)
    {
      EarlierEvents(c, start, events, e, k);
    }
  }

  lemma DropsNext(c: Config, start: real, events: seq<Event>, e: Event)
    ensures var drop, report := DropsAt(c, start, events + [e], |events|), ReportsAt(c, start, events + [e], |events|);
            var u, r := Unreported(c, start, events), Reported(c, start, events);
            && Unreported(c, start, events + [e]) == (if report then {} else u) + (if drop then {|events|} else {})
            && Reported(c, start, events + [e]) == if report then r + u else r
  {
    hide DropsAt, ReportsAt, ReportedAfter;
    var all := events + [e];
    assert !ReportedAfter(c, start, all, |events|) by { NothingAfterLast(c, start, all); }
    assert !(DropsAt(c, start, all, |events|) && ReportsAt(c, start, all, |events|)) by {
      LastEvent(c, start, events, e);
    }
    forall i: nat | i < |events|
      ensures DropsAt(c, start, all, i) == DropsAt(c, start, events, i)
      ensures ReportedAfter(c, start, all, i)
         <==> ReportedAfter(c, start, events, i) || ReportsAt(c, start, all, |events|)
    {
      EarlierEvents(c, start, events, e, i);
      ReportedAfterNext(c, start, events, e, i);
    }
  }

  lemma NothingAfterLast(c: Config, start: real, events: seq<Event>)
    requires events != []
    ensures !ReportedAfter(c, start, events, |events| - 1)
  {
  }

  lemma DropsAreApart(c: Config, start: real, events: seq<Event>)
    ensures |Reported(c, start, events) + Unreported(c, start, events)|
         == |Reported(c, start, events)| + |Unreported(c, start, events)|
    ensures |events| !in Unreported(c, start, events)
  {
    hide DropsAt, ReportedAfter;
    assert Reported(c, start, events) !! Unreported(c, start, events);
  }

  /** How one event moves the two counts. */
  lemma CountersStep(c: Config, s: State, e: Event)
    ensures var t := Apply(c, s, e);
            if e.Report? && At(s, e.job, Training) then t.dropped == 0 && t.reported == s.reported + s.dropped
            else t.reported == s.reported && t.dropped == s.dropped + if e.Observe? && s.inFlight then 1 else 0
  {
    hide Due;
  }

  /**
   * The drop counter exactly: it is the number of drops since the last report, and the drops before that report are all
   * in the reports. So it is positive, in flight or not, exactly when a drop came after the last report.
   */
  lemma {:induction false} DropCounterExact(c: Config, start: real, events: seq<Event>)
    ensures var s := Run(c, start, events);
            && s.dropped == |Unreported(c, start, events)| && s.reported == |Reported(c, start, events)|
            && (s.dropped > 0 <==> exists i: nat | i < |events| ::
                  DropsAt(c, start, events, i) && !ReportedAfter(c, start, events, i))
  {
    hide Apply, DropsAt, ReportsAt, ReportedAfter;
    if events == [] {
      assert Unreported(c, start, events) == {} && Reported(c, start, events) == {};
    } else {
      var before, e := events[..|events| - 1], events[|events| - 1];
      assert events == before + [e];
      DropCounterExact(c, start, before);
      DropsNext(c, start, before, e);
      DropsAreApart(c, start, before);
      LastEvent(c, start, before, e);
      CountersStep(c, Run(c, start, before), e);
    }
    SomeUnreported(c, start, events);
  }

  lemma SomeUnreported(c: Config, start: real, events: seq<Event>)
    ensures |Unreported(c, start, events)| > 0
       <==> exists i: nat | i < |events| :: DropsAt(c, start, events, i) && !ReportedAfter(c, start, events, i)
  {
    hide DropsAt, ReportedAfter;
    if i: nat :| i < |events| && DropsAt(c, start, events, i) && !ReportedAfter(c, start, events, i) {
      assert i in Unreported(c, start, events);
    }
    if Unreported(c, start, events) != {} {
      var i :| i in Unreported(c, start, events);
    }
  }

  /** Whatever is left over, the next report takes all of it. */
  lemma NextReportTakesAll(c: Config, start: real, events: seq<Event>, j: nat)
    requires At(Run(c, start, events), j, Training)
    ensures var s, t := Run(c, start, events), Run(c, start, events + [Report(j)]);
            && t.reported == s.reported + |Unreported(c, start, events)| && t.dropped == 0
            && Unreported(c, start, events + [Report(j)]) == {}
            && Reported(c, start, events + [Report(j)]) == Reported(c, start, events) + Unreported(c, start, events)
  {
    hide Apply, DropsAt, ReportsAt, ReportedAfter;
    DropCounterExact(c, start, events);
    RunNext(c, start, events, Report(j));
    CountersStep(c, Run(c, start, events), Report(j));
    DropsNext(c, start, events, Report(j));
    LastEvent(c, start, events, Report(j));
  }

  /** Such a drop at rest: one between the two last lock sections. */
  lemma DropBetweenLastSections(c: Config, start: real, events: seq<Event>, x: Sample)
    requires At(Run(c, start, events), 0, Ending)
    ensures var s, t := Run(c, start, events), Run(c, start, events + [Observe(x)] + [Finish(0)]);
            !t.inFlight && t.jobs == [] && t.dropped == s.dropped + 1 && t.reported == s.reported
  {
    hide Due;
    RunSafe(c, start, events);
    RunNext(c, start, events, Observe(x));
    RunNext(c, start, events + [Observe(x)], Finish(0));
  }

  /** And another: one before a training that never starts. */
  lemma DropBeforeAbort(c: Config, start: real, x: Sample, y: Sample)
    requires Due(c, [x], start)
    ensures var t := Run(c, start, [] + [Observe(x)] + [Observe(y)] + [Abort(0)]);
            !t.inFlight && t.jobs == [] && t.dropped == 1 && t.reported == 0
  {
    hide Due;
    RunNext(c, start, [], Observe(x));
    RunNext(c, start, [] + [Observe(x)], Observe(y));
    RunNext(c, start, [] + [Observe(x)] + [Observe(y)], Abort(0));
    assert [] + [x] == [x];
  }

  lemma RunNext(c: Config, start: real, events: seq<Event>, e: Event)
    ensures Run(c, start, events + [e]) == Apply(c, Run(c, start, events), e)
  {
    assert (events + [e])[..|events|] == events;
  }

  /* ---- the collector itself, with counters kept up to date ---- */

  class BaselineCollector {
    const config: Config
    const enabled: bool
    var buffer: seq<Sample>
    var srcIps: set<string>
    var dstPortCounts: map<int, nat>
    var windowStart: real
    var inFlight: bool
    var dropped: nat
    ghost var jobs: seq<Job>
    ghost var fired: seq<Window>
    ghost var fates: seq<Fate>
    ghost var reported: nat

    /** The live counters agree with a recount of the buffer. */
    ghost predicate Valid()
      reads this
    {
      dstPortCounts == PortCounts(buffer) && srcIps == Sources(buffer)
    }

    ghost function Abs(): State
      reads this
    {
      State(buffer, windowStart, inFlight, dropped, jobs, fired, fates, reported)
    }

    constructor (config: Config, enabled: bool, now: real)
      ensures Valid() && Abs() == Init(now) && this.config == config && this.enabled == enabled
    {
      this.config, this.enabled, windowStart := config, enabled, now;
      buffer, srcIps, dstPortCounts, inFlight, dropped := [], {}, map[], false, 0;
      jobs, fired, fates, reported := [], [], [], 0;
      new;
      assert PortCounts([]) == map[] && Sources([]) == {};
    }

    /** The lock section of `observe`; no sample when the record's fields could not be read. */
    method Observe(record: Option<Sample>) returns (window: Option<Window>)
      requires Valid()
      modifies this
      ensures Valid()
      ensures !enabled || record.None? ==> Abs() == old(Abs()) && window.None?
      ensures enabled && record.Some? ==> Abs() == ObserveStep(config, old(Abs()), record.value)
      ensures window.Some? <==> enabled && record.Some? && !old(inFlight)
                                && Due(config, old(buffer) + [record.value], old(windowStart))
      ensures fired == old(fired) + if window.Some? then [window.value] else []
    {
      hide CountOf, SetOf, Sources, Due, ShouldFire;
      window := None;
      if !enabled || record.None? {
        return;
      }
      var x := record.value;
      if inFlight {
        dropped := dropped + 1;
        fates := fates + [Dropped(x)];
        return;
      }
      DueIs(config, buffer + [x], windowStart);
      Append(x);
      var total := |buffer|;
      var elapsed := Max(0.0, x.ts - windowStart);
      var hitHardCap := total >= HARD_CAP;
      if hitHardCap || ShouldFire(config, total, |srcIps|, elapsed, dstPortCounts) {
        window := Some(Window(buffer, windowStart, x.ts, if hitHardCap then HardCap else CompositeTrigger));
        Reset(x.ts);
        jobs := jobs + [Job(window.value, Preparing)];
        fired := fired + [window.value];
      }
    }

    method Append(x: Sample)
      requires Valid()
      modifies this`buffer, this`srcIps, this`dstPortCounts, this`fates
      ensures Valid() && buffer == old(buffer) + [x] && fates == old(fates) + [Taken(x)]
    {
      hide CountOf, SetOf;
      EachNext(buffer, x, PORT);
      SourcesNext(buffer, x);
      CountNext(Each(buffer, PORT), x.dstPort);
      buffer := buffer + [x];
      srcIps := srcIps + {x.srcIp};
      dstPortCounts := Bump(dstPortCounts, x.dstPort);
      fates := fates + [Taken(x)];
    }

    method Reset(ts: real)
      modifies this`inFlight, this`buffer, this`srcIps, this`dstPortCounts, this`windowStart
      ensures Valid() && buffer == [] && inFlight && windowStart == ts
    {
      inFlight := true;
      buffer, srcIps, dstPortCounts, windowStart := [], {}, map[], ts;
      assert PortCounts([]) == map[] && Sources([]) == {};
    }

    /** Provenance or thread start failed: the window is given up. */
    method AbortTraining(ghost j: nat)
      requires Valid() && At(Abs(), j, Preparing)
      modifies this`inFlight, this`jobs
      ensures Valid() && Abs() == Apply(config, old(Abs()), Abort(j))
    {
      inFlight := false;
      jobs := Retire(jobs, j);
    }

    /** The first of the trainer's two last lock sections. */
    method TakeDropped(ghost j: nat) returns (n: nat)
      requires Valid() && At(Abs(), j, Training)
      modifies this`dropped, this`jobs, this`reported
      ensures Valid() && Abs() == Apply(config, old(Abs()), Report(j))
      ensures n == old(dropped) && reported == old(reported) + n
    {
      n := dropped;
      dropped := 0;
      jobs := Move(jobs, j, Ending);
      reported := reported + n;
    }

    /** The second one. */
    method EndTraining(ghost j: nat)
      requires Valid() && At(Abs(), j, Ending)
      modifies this`inFlight, this`jobs
      ensures Valid() && Abs() == Apply(config, old(Abs()), Finish(j))
    {
      inFlight := false;
      jobs := Retire(jobs, j);
    }
  }

  /* ---- provenance and progress ---- */

  datatype Provenance = Provenance(reason: Reason, distinctSrcIps: nat, distinctDstPorts: nat, entropy: real,
                                   portCounts: map<int, nat>, hours: map<int, nat>, protocols: map<string, nat>)

  /** The recount of a window; `hourOf` gives no hour for a timestamp that is out of range, which counts as hour 0. */
  method FromWindow(c: Config, w: Window, hourOf: real -> Option<int>) returns (p: Provenance)
    ensures p.reason == w.reason
    ensures p.distinctSrcIps == |Sources(w.samples)|
    ensures p.portCounts == PortCounts(w.samples) && p.distinctDstPorts == |SetOf(Each(w.samples, PORT))|
    ensures p.entropy == c.entropy(PortCounts(w.samples))
    ensures p.hours == CountOf(Each(w.samples, (x: Sample) => if hourOf(x.ts).Some? then hourOf(x.ts).value else 0))
    ensures p.protocols == CountOf(Each(w.samples, PROTOCOL))
  {
    hide CountOf, SetOf;
    var ips: set<string>, ports: map<int, nat> := {}, map[];
    var hours: map<int, nat>, protocols: map<string, nat> := map[], map[];
    ghost var hour := (x: Sample) => if hourOf(x.ts).Some? then hourOf(x.ts).value else 0;
    var i := 0;
    NothingCounted<int>();
    NothingCounted<string>();
    while i < |w.samples|
      invariant i <= |w.samples|
      invariant ips == SetOf(Each(w.samples[..i], SOURCE)) && ports == CountOf(Each(w.samples[..i], PORT))
      invariant hours == CountOf(Each(w.samples[..i], hour)) && protocols == CountOf(Each(w.samples[..i], PROTOCOL))
    {
      var x := w.samples[i];
      assert w.samples[..i + 1] == w.samples[..i] + [x];
      RecountStep(w.samples[..i], x, SOURCE);
      RecountStep(w.samples[..i], x, PORT);
      RecountStep(w.samples[..i], x, hour);
      RecountStep(w.samples[..i], x, PROTOCOL);
      ips := ips + {x.srcIp};
      ports := Bump(ports, x.dstPort);
      protocols := Bump(protocols, x.protocol);
      hours := Bump(hours, HourOr0(hourOf(x.ts)));
      i := i + 1;
    }
    assert w.samples[..i] == w.samples;
    CountKeys(Each(w.samples, PORT));
    SourcesAre(w.samples);
    p := Provenance(w.reason, |ips|, |ports|, c.entropy(ports), ports, hours, protocols);
  }

  function HourOr0(h: Option<int>): int {
    if h.Some? then h.value else 0
  }

  lemma NothingCounted<T(!new)>()
    ensures CountOf<T>([]) == map[] && SetOf<T>([]) == {}
  {
  }

  lemma RecountStep<T(!new)>(xs: seq<Sample>, x: Sample, f: Sample -> T)
    ensures CountOf(Each(xs + [x], f)) == Bump(CountOf(Each(xs, f)), f(x))
    ensures SetOf(Each(xs + [x], f)) == SetOf(Each(xs, f)) + {f(x)}
  {
    EachNext(xs, x, f);
    CountNext(Each(xs, f), f(x));
  }

  lemma CountKeys<T(!new)>(xs: seq<T>)
    ensures |CountOf(xs)| == |SetOf(xs)|
  {
    assert CountOf(xs).Keys == SetOf(xs);
  }

  function Ratio(current: real, threshold: real): real {
    if threshold <= 0.0 then 1.0
    else
      var r := current / threshold;
      if r < 1.0 then r else 1.0
  }

  lemma Quotient(q: real, current: real, threshold: real)
    requires threshold > 0.0 && q * threshold == current
    ensures q >= 1.0 <==> current >= threshold
    ensures current >= 0.0 ==> q >= 0.0
  {
    assert (q - 1.0) * threshold == current - threshold;
    SignOfProduct(q - 1.0, threshold, (q - 1.0) * threshold);
    SignOfProduct(q, threshold, current);
  }

  lemma SignOfProduct(x: real, t: real, p: real)
    requires t > 0.0 && p == x * t
    ensures p >= 0.0 <==> x >= 0.0
  {
    if x < 0.0 {
      assert (0.0 - x) * t > 0.0;
    }
  }

  lemma RatioIsFull(current: real, threshold: real)
    requires current >= 0.0
    ensures 0.0 <= Ratio(current, threshold) <= 1.0
    ensures Ratio(current, threshold) == 1.0 <==> current >= threshold
  {
    if threshold > 0.0 {
      Quotient(current / threshold, current, threshold);
    }
  }

  datatype Progress = Progress(vectors: real, ips: real, time: real, entropy: real)

  /** The progress ratios of `snapshot`. */
  function ProgressOf(c: Config, n: nat, ips: nat, elapsed: real, counts: map<int, nat>): Progress {
    Progress(Ratio(n as real, c.trigger.minVectors as real), Ratio(ips as real, c.trigger.minIps as real),
             Ratio(elapsed, c.trigger.minElapsed), Ratio(c.entropy(counts), c.trigger.minEntropy))
  }

  /** Each ratio is its own part of the trigger: 1 when that part is met, and otherwise current over threshold. */
  lemma ProgressParts(c: Config, n: nat, ips: nat, elapsed: real, counts: map<int, nat>)
    ensures var p, t := ProgressOf(c, n, ips, elapsed, counts), c.trigger;
            && (if n < t.minVectors then p.vectors * t.minVectors as real == n as real else p.vectors == 1.0)
            && (if ips < t.minIps then p.ips * t.minIps as real == ips as real else p.ips == 1.0)
            && (elapsed >= t.minElapsed ==> p.time == 1.0)
            && (0.0 < t.minElapsed && elapsed < t.minElapsed ==> p.time * t.minElapsed == elapsed)
            && (c.entropy(counts) >= t.minEntropy ==> p.entropy == 1.0)
            && (0.0 < t.minEntropy && c.entropy(counts) < t.minEntropy
                ==> p.entropy * t.minEntropy == c.entropy(counts))
  {
    hide Ratio;
    RatioIs(n as real, c.trigger.minVectors as real);
    RatioIs(ips as real, c.trigger.minIps as real);
    RatioIs(elapsed, c.trigger.minElapsed);
    RatioIs(c.entropy(counts), c.trigger.minEntropy);
  }

  lemma RatioIs(current: real, threshold: real)
    ensures current >= threshold || threshold <= 0.0 ==> Ratio(current, threshold) == 1.0
    ensures 0.0 < threshold && current < threshold ==> Ratio(current, threshold) * threshold == current
  {
    if threshold > 0.0 {
      Quotient(current / threshold, current, threshold);
    }
  }

  /** All progress ratios are full exactly when the composite trigger would fire. */
  lemma FullProgressIffTrigger(c: Config, n: nat, ips: nat, elapsed: real, counts: map<int, nat>)
    requires elapsed >= 0.0 && c.entropy(counts) >= 0.0
    ensures ProgressOf(c, n, ips, elapsed, counts) == Progress(1.0, 1.0, 1.0, 1.0)
       <==> ShouldFire(c, n, ips, elapsed, counts)
  {
    hide Ratio;
    RatioIsFull(n as real, c.trigger.minVectors as real);
    RatioIsFull(ips as real, c.trigger.minIps as real);
    RatioIsFull(elapsed, c.trigger.minElapsed);
    RatioIsFull(c.entropy(counts), c.trigger.minEntropy);
    assert n as real >= c.trigger.minVectors as real <==> n >= c.trigger.minVectors;
    assert ips as real >= c.trigger.minIps as real <==> ips >= c.trigger.minIps;
  }
}
