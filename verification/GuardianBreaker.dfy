/** The Guardian's circuit breaker: what it bounds over every run of the protocol, and that the bound is reached. */
module GuardianBreaker {
  import opened GuardianLoop
  import opened GuardianProtocol
  import opened MitigationRows
  import opened Wrappers

  /** How many of the rows were created after `lo` and no later than `hi`. */
  function Created(rows: seq<Action>, lo: real, hi: real): nat {
    if rows == [] then 0
    else
      var t := rows[|rows| - 1].created;
      Created(rows[..|rows| - 1], lo, hi) + if lo < t <= hi then 1 else 0
  }

  /** Rows of the passed check `k`, up to the next one. */
  function BatchEnd(s: State, k: nat): nat
    requires k < |s.checks|
  {
    if k + 1 < |s.checks| then s.checks[k + 1].rowsBefore else |s.rows|
  }

  function LastBatch(s: State): int
    requires s.checks != []
  {
    |s.rows| - s.checks[|s.checks| - 1].rowsBefore
  }

  /** What check `k` knew and what followed it. */
  ghost predicate CheckHolds(c: Config, s: State, k: nat)
    requires k < |s.checks|
  {
    var ch := s.checks[k];
    && ch.rowsBefore <= BatchEnd(s, k) <= |s.rows|
    && CreatedSince(s.rows[..ch.rowsBefore], ch.time - c.window) < c.maxActions
    && BatchEnd(s, k) - ch.rowsBefore <= ch.eligible
    && ch.time <= s.clock
    && forall i | ch.rowsBefore <= i < |s.rows| :: s.rows[i].created >= ch.time
  }

  /** Eligible alerts the loop may still act on. */
  function Open(c: Config, l: Loop): nat {
    match l
    case Handling(batch) => CountEligible(c, batch)
    case Blocking(a, batch) => 1 + CountEligible(c, batch)
    case Inserting(a, batch) => 1 + CountEligible(c, batch)
    case _ => 0
  }

  ghost predicate Budget(c: Config, n: nat, s: State) {
    && (s.loop.Handling? || s.loop.Blocking? || s.loop.Inserting? ==> s.checks != [])
    && (s.checks == [] ==> |s.rows| == n)
    && (s.checks != [] ==> s.checks[0].rowsBefore == n)
    && (s.checks != [] ==> LastBatch(s) + Open(c, s.loop) <= s.checks[|s.checks| - 1].eligible)
    && forall k | 0 <= k < |s.checks| :: CheckHolds(c, s, k)
  }

  /** The breaker's count depends on creation times alone. */
  lemma {:induction false} CreatedSinceByTime(rows: seq<Action>, later: seq<Action>, lo: real)
    requires |rows| == |later| && forall i | 0 <= i < |rows| :: rows[i].created == later[i].created
    ensures CreatedSince(rows, lo) == CreatedSince(later, lo)
  {
    if rows != [] {
      CreatedSinceByTime(rows[..|rows| - 1], later[..|rows| - 1], lo);
    }
  }

  /** Every step but a passed check keeps each check's facts, as long as it stays within the open budget. */
  lemma CheckHoldsStill(c: Config, s: State, t: State, k: nat)
    requires k < |s.checks| && CheckHolds(c, s, k) && Grows(s.rows, t.rows) && t.checks == s.checks
    requires s.clock <= t.clock && forall i | |s.rows| <= i < |t.rows| :: t.rows[i].created == t.clock
    requires LastBatch(t) <= s.checks[|s.checks| - 1].eligible
    ensures CheckHolds(c, t, k)
  {
    hide CreatedSince;
    var n := s.checks[k].rowsBefore;
    CreatedSinceByTime(s.rows[..n], t.rows[..n], s.checks[k].time - c.window);
  }

  lemma BudgetQuietStep(c: Config, n: nat, s: State, t: State)
    requires Budget(c, n, s) && Grows(s.rows, t.rows) && t.checks == s.checks && s.clock <= t.clock
    requires forall i | |s.rows| <= i < |t.rows| :: t.rows[i].created == t.clock
    requires |t.rows| + Open(c, t.loop) <= |s.rows| + Open(c, s.loop)
    requires |t.rows| > |s.rows| ==> s.checks != []
    requires t.loop.Handling? || t.loop.Blocking? || t.loop.Inserting? ==> s.checks != []
    ensures Budget(c, n, t)
  {
    hide CreatedSince, Open, CheckHolds, Grows;
    assert Grows(s.rows, t.rows) ==> |s.rows| <= |t.rows| by { GrownLength(s.rows, t.rows); }
    forall k | 0 <= k < |t.checks|
      ensures CheckHolds(c, t, k)
    {
      CheckHoldsStill(c, s, t, k);
    }
  }

  lemma GrownLength(rows: seq<Action>, later: seq<Action>)
    ensures Grows(rows, later) ==> |rows| <= |later|
  {
  }

  lemma PassedCheck(c: Config, n: nat, s: State, now: real, batch: seq<Alert>)
    requires Budget(c, n, s) && now >= s.clock && CreatedSince(s.rows, now - c.window) < c.maxActions
    ensures Budget(c, n, s.(clock := now, loop := Handling(batch),
                         checks := s.checks + [Check(|s.rows|, now, CountEligible(c, batch))]))
  {
    hide CreatedSince, CountEligible;
    var t := s.(clock := now, loop := Handling(batch),
                checks := s.checks + [Check(|s.rows|, now, CountEligible(c, batch))]);
    assert s.rows[..|s.rows|] == s.rows;
    forall k | 0 <= k < |t.checks|
      ensures CheckHolds(c, t, k)
    {
      if k < |s.checks| {
        assert CheckHolds(c, s, k) && t.checks[k] == s.checks[k] && BatchEnd(t, k) == BatchEnd(s, k);
      } else {
        assert BatchEnd(t, k) == |s.rows|;
      }
    }
  }

  lemma OpenShrinks(c: Config, s: State, e: Event)
    requires e.Consider? || e.BlockCall? || e.LoopFails? || e.Poll? || e.Insert?
    ensures var t := Apply(c, s, e);
            && |t.rows| + Open(c, t.loop) <= |s.rows| + Open(c, s.loop)
            && (t.loop.Handling? || t.loop.Blocking? || t.loop.Inserting?
                ==> s.loop.Handling? || s.loop.Blocking? || s.loop.Inserting?)
            && (|t.rows| > |s.rows| ==> s.loop.Inserting?)
            && t.checks == s.checks && s.clock <= t.clock
            && forall i | |s.rows| <= i < |t.rows| :: t.rows[i].created == t.clock
  {
    hide Ascending, CreatedSince, Eligible, HasActive;
    if e.Consider? && s.loop.Handling? && s.loop.batch != [] {
      assert CountEligible(c, s.loop.batch)
          == (if Eligible(c, s.loop.batch[0]) then 1 else 0) + CountEligible(c, s.loop.batch[1..]);
    }
  }

  lemma OtherTasksAreQuiet(c: Config, s: State, e: Event)
    requires !(e.Consider? || e.BlockCall? || e.LoopFails? || e.Poll? || e.Insert? || e.CheckBreaker?)
    ensures var t := Apply(c, s, e);
            t.loop == s.loop && t.checks == s.checks && s.clock <= t.clock && |t.rows| == |s.rows|
  {
    hide DueRows;
  }

  lemma BudgetStep(c: Config, n: nat, s: State, e: Event)
    requires Budget(c, n, s) && OnlyResolves(s)
    ensures Budget(c, n, Apply(c, s, e))
  {
    hide Budget, Open, CreatedSince, CountEligible, Grows, OnlyResolves, Ascending, HasActive, Eligible, DueRows;
    var t := Apply(c, s, e);
    RowsGrow(c, s, e);
    if e.CheckBreaker? {
      BreakerStep(c, n, s, e.now);
    } else {
      hide Apply;
      if e.Consider? || e.BlockCall? || e.LoopFails? || e.Poll? || e.Insert? {
        OpenShrinks(c, s, e);
      } else {
        OtherTasksAreQuiet(c, s, e);
      }
      BudgetHasChecks(c, n, s);
      BudgetQuietStep(c, n, s, t);
    }
  }

  lemma BudgetHasChecks(c: Config, n: nat, s: State)
    requires Budget(c, n, s)
    ensures s.loop.Handling? || s.loop.Blocking? || s.loop.Inserting? ==> s.checks != []
  {
  }

  lemma BreakerStep(c: Config, n: nat, s: State, now: real)
    requires Budget(c, n, s) && OnlyResolves(s)
    ensures Budget(c, n, Apply(c, s, CheckBreaker(now)))
  {
    hide Budget, CreatedSince, CountEligible, Grows, OnlyResolves;
    var t := Apply(c, s, CheckBreaker(now));
    RowsGrow(c, s, CheckBreaker(now));
    BudgetHasChecks(c, n, s);
    if t.checks != s.checks {
      PassedCheck(c, n, s, now, s.loop.batch);
    } else {
      BudgetQuietStep(c, n, s, t);
    }
  }

  lemma {:induction false} RunKeepsBudget(c: Config, b: Start, events: seq<Event>)
    ensures Budget(c, |b.rows|, Run(c, b, events))
  {
    if events == [] {
    } else {
      hide Apply, Budget, OnlyResolves;
      RunKeepsBudget(c, b, events[..|events| - 1]);
      StartListens(b);
      RunGrows(c, Init(b), events[..|events| - 1]);
      BudgetStep(c, |b.rows|, Run(c, b, events[..|events| - 1]), events[|events| - 1]);
    }
  }

  lemma {:induction false} CreatedSplits(a: seq<Action>, b: seq<Action>, lo: real, hi: real)
    ensures Created(a + b, lo, hi) == Created(a, lo, hi) + Created(b, lo, hi)
  {
    if b == [] {
      assert a + b == a;
    } else {
      assert (a + b)[..|a + b| - 1] == a + b[..|b| - 1];
      CreatedSplits(a, b[..|b| - 1], lo, hi);
    }
  }

  lemma {:induction false} CreatedIsCounted(rows: seq<Action>, lo: real, hi: real, since: real)
    requires since <= lo
    ensures Created(rows, lo, hi) <= CreatedSince(rows, since) && Created(rows, lo, hi) <= |rows|
  {
    if rows != [] {
      CreatedIsCounted(rows[..|rows| - 1], lo, hi, since);
    }
  }

  lemma {:induction false} NoneCreated(rows: seq<Action>, lo: real, hi: real)
    requires forall i | 0 <= i < |rows| :: !(lo < rows[i].created <= hi)
    ensures Created(rows, lo, hi) == 0
  {
    if rows != [] {
      NoneCreated(rows[..|rows| - 1], lo, hi);
    }
  }

  /** Batch `k` acted in the interval (lo, hi]. */
  ghost predicate ActedIn(s: State, k: nat, lo: real, hi: real)
    requires k < |s.checks|
  {
    exists i | s.checks[k].rowsBefore <= i < BatchEnd(s, k) && i < |s.rows| :: lo < s.rows[i].created <= hi
  }

  ghost predicate QuietAfter(s: State, k: nat, lo: real, hi: real)
    requires k < |s.checks|
  {
    forall i | BatchEnd(s, k) <= i < |s.rows| :: !(lo < s.rows[i].created <= hi)
  }

  /**
   * The breaker's bound: in any interval of the window's length there are fewer than the maximum of actions
   * besides those of the last batch that acted in it, of which there are at most as many as its eligible alerts.
   */
  lemma BreakerBound(c: Config, b: Start, events: seq<Event>, lo: real, k: nat)
    requires var s := Run(c, b, events);
             k < |s.checks| && ActedIn(s, k, lo, lo + c.window) && QuietAfter(s, k, lo, lo + c.window)
    ensures var s := Run(c, b, events);
            Created(s.rows, lo, lo + c.window) <= c.maxActions - 1 + s.checks[k].eligible
  {
    hide Run;
    var s := Run(c, b, events);
    RunKeepsBudget(c, b, events);
    BoundAt(c, s, lo, k);
  }

  lemma BoundAt(c: Config, s: State, lo: real, k: nat)
    requires k < |s.checks| && CheckHolds(c, s, k) && ActedIn(s, k, lo, lo + c.window)
             && QuietAfter(s, k, lo, lo + c.window)
    ensures Created(s.rows, lo, lo + c.window) <= c.maxActions - 1 + s.checks[k].eligible
  {
    hide Created, CreatedSince;
    var hi, from, end := lo + c.window, s.checks[k].rowsBefore, BatchEnd(s, k);
    var a, b, d := s.rows[..from], s.rows[from..end], s.rows[end..];
    assert s.rows == a + b + d;
    CreatedSplits(a + b, d, lo, hi);
    CreatedSplits(a, b, lo, hi);
    CreatedIsCounted(a, lo, hi, s.checks[k].time - c.window);
    CreatedIsCounted(b, lo, hi, lo);
    NoneCreated(d, lo, hi);
  }

  /** Such a last batch exists whenever there was any action since the start in the interval. */
  lemma LastActingBatch(c: Config, b: Start, events: seq<Event>, lo: real, hi: real) returns (k: nat)
    requires var s := Run(c, b, events); |b.rows| <= |s.rows| && Created(s.rows[|b.rows|..], lo, hi) > 0
    ensures var s := Run(c, b, events);
            k < |s.checks| && ActedIn(s, k, lo, hi) && QuietAfter(s, k, lo, hi)
  {
    hide Run, ActedIn, QuietAfter, CheckHolds;
    var s, n := Run(c, b, events), |b.rows|;
    RunKeepsBudget(c, b, events);
    if s.checks == [] {
      NoneCreated(s.rows[n..], lo, hi);
    }
    k := |s.checks| - 1;
    NothingAfterLast(s, lo, hi);
    while !ActedIn(s, k, lo, hi)
      invariant k < |s.checks| && QuietAfter(s, k, lo, hi)
      decreases k
    {
      if k == 0 {
        QuietFromStart(s, lo, hi);
        NoneCreated(s.rows[n..], lo, hi);
        assert false;
      }
      QuietBefore(s, k, lo, hi);
      k := k - 1;
    }
  }

  lemma NothingAfterLast(s: State, lo: real, hi: real)
    requires s.checks != []
    ensures QuietAfter(s, |s.checks| - 1, lo, hi)
  {
  }

  lemma QuietBefore(s: State, k: nat, lo: real, hi: real)
    requires 0 < k < |s.checks| && QuietAfter(s, k, lo, hi) && !ActedIn(s, k, lo, hi)
    ensures QuietAfter(s, k - 1, lo, hi)
  {
  }

  lemma QuietFromStart(s: State, lo: real, hi: real)
    requires s.checks != [] && QuietAfter(s, 0, lo, hi) && !ActedIn(s, 0, lo, hi)
    ensures forall i | s.checks[0].rowsBefore <= i < |s.rows| :: !(lo < s.rows[i].created <= hi)
  {
  }

  /** If every batch that passed had at most one eligible alert, the maximum does bound every window with an action. */
  lemma SingleAlertsKeepMaximum(c: Config, b: Start, events: seq<Event>, lo: real)
    requires var s := Run(c, b, events);
             && |b.rows| <= |s.rows| && Created(s.rows[|b.rows|..], lo, lo + c.window) > 0
             && forall k | 0 <= k < |s.checks| :: s.checks[k].eligible <= 1
    ensures Created(Run(c, b, events).rows, lo, lo + c.window) <= c.maxActions
  {
    hide Run, ActedIn, QuietAfter, Created;
    var k := LastActingBatch(c, b, events, lo, lo + c.window);
    BreakerBound(c, b, events, lo, k);
  }

  lemma {:induction false} AllEligible(c: Config, batch: seq<Alert>)
    requires forall k | 0 <= k < |batch| :: Eligible(c, batch[k])
    ensures CountEligible(c, batch) == |batch|
  {
    hide Eligible;
    if batch != [] {
      AllEligible(c, batch[1..]);
    }
  }

  lemma {:induction false} CreatedBy(rows: seq<Action>, lo: real, hi: real)
    requires forall i | 0 <= i < |rows| :: rows[i].created <= hi
    ensures Created(rows, lo, hi) == CreatedSince(rows, lo)
  {
    if rows != [] {
      CreatedBy(rows[..|rows| - 1], lo, hi);
    }
  }

  lemma {:induction false} AllCreated(rows: seq<Action>, lo: real, hi: real)
    requires forall i | 0 <= i < |rows| :: lo < rows[i].created <= hi
    ensures Created(rows, lo, hi) == |rows|
  {
    if rows != [] {
      AllCreated(rows[..|rows| - 1], lo, hi);
    }
  }

  /** One batch, polled and handled at once while the breaker is not tripped. */
  lemma WholeBatch(c: Config, start: State, events: seq<Event>, batch: seq<Alert>) returns (more: seq<Event>)
    requires var s := RunFrom(c, start, events);
             && s.loop.Sleeping? && batch != [] && Ascending(batch, s.lastSeen) && Actionable(c, s.rows, batch)
             && CreatedSince(s.rows, s.clock - c.window) < c.maxActions
    ensures var s, t := RunFrom(c, start, events), RunFrom(c, start, more);
            && t.rows == s.rows + Acted(c, batch, s.clock) && t.loop.Sleeping? && t.clock == s.clock
            && t.lastSeen == batch[|batch| - 1].id
            && t.checks == s.checks + [Check(|s.rows|, s.clock, CountEligible(c, batch))]
  {
    hide RunFrom, Eligible, HasActive, Actionable, Acted, Ascending, CreatedSince, CountEligible;
    var s := RunFrom(c, start, events);
    RunNext(c, start, events, Poll(batch));
    more := events + [Poll(batch)];
    RunNext(c, start, more, CheckBreaker(s.clock));
    more := more + [CheckBreaker(s.clock)];
    more := HandleAll(c, start, more, s.clock);
    RunNext(c, start, more, Consider);
    more := more + [Consider];
  }

  lemma ActionableAfter(c: Config, rows: seq<Action>, early: seq<Alert>, batch: seq<Alert>, now: real)
    requires Actionable(c, rows, early + batch)
    ensures Actionable(c, rows, early) && Actionable(c, rows + Acted(c, early, now), batch)
  {
    hide Eligible;
    var all := early + batch;
    assert forall k | 0 <= k < |early| :: all[k] == early[k];
    assert forall k | 0 <= k < |batch| :: all[|early| + k] == batch[k];
    var later := rows + Acted(c, early, now);
    forall k | 0 <= k < |batch|
      ensures Eligible(c, batch[k]) && !HasActive(later, batch[k].ip)
    {
      assert !HasActive(rows, all[|early| + k].ip);
      assert forall i | 0 <= i < |early| :: early[i].ip != batch[k].ip;
      NobodyActive(later, batch[k].ip);
    }
  }

  /**
   * The bound is reached: for every start with no recent action, every positive window and maximum, and any alerts for
   * different clients, one fewer than the maximum in a first batch and n in the next, some run of the two batches has
   * maximum - 1 + n actions within one window. With n > 1 that is above the maximum.
   */
  lemma BoundIsReached(c: Config, b: Start, early: seq<Alert>, batch: seq<Alert>) returns (events: seq<Event>, k: nat)
    requires c.window > 0.0 && |early| == c.maxActions - 1 && batch != []
    requires Ascending(early + batch, b.lastAlert) && Actionable(c, b.rows, early + batch)
    requires CreatedSince(b.rows, b.now - c.window) == 0 && forall i | 0 <= i < |b.rows| :: b.rows[i].created <= b.now
    ensures var s := Run(c, b, events);
            && Created(s.rows, b.now - c.window, b.now) == c.maxActions - 1 + |batch|
            && k < |s.checks| && s.checks[k].eligible == |batch|
  {
    hide *;
    events := FirstBatch(c, b, early, batch);
    var start, s := Init(b), RunFrom(c, Init(b), events);
    k := |s.checks|;
    events := WholeBatch(c, start, events, batch);
    ActedJoin(c, b.rows, early, batch, b.now);
    CountAfter(c, b.rows, early + batch, b.now, b.now - c.window);
    ActionableIsEligible(c, s.rows, batch);
    AllEligible(c, batch);
    RunIsFrom(c, b, events);
  }

  lemma RunIsFrom(c: Config, b: Start, events: seq<Event>)
    ensures Run(c, b, events) == RunFrom(c, Init(b), events)
  {
  }

  /** The first of the two batches leaves the breaker one action below its maximum. */
  lemma FirstBatch(c: Config, b: Start, early: seq<Alert>, batch: seq<Alert>) returns (events: seq<Event>)
    requires c.window > 0.0 && |early| == c.maxActions - 1
    requires Ascending(early + batch, b.lastAlert) && Actionable(c, b.rows, early + batch)
    requires CreatedSince(b.rows, b.now - c.window) == 0 && forall i | 0 <= i < |b.rows| :: b.rows[i].created <= b.now
    ensures var s := RunFrom(c, Init(b), events);
            && s.loop.Sleeping? && s.clock == b.now && s.rows == b.rows + Acted(c, early, b.now)
            && Ascending(batch, s.lastSeen) && Actionable(c, s.rows, batch)
            && CreatedSince(s.rows, s.clock - c.window) < c.maxActions
  {
    hide RunFrom, Eligible, HasActive, Actionable, Acted, CreatedSince, Created, CountEligible;
    NoEvents(c, Init(b));
    ActionableAfter(c, b.rows, early, batch, b.now);
    CountAfter(c, b.rows, early, b.now, b.now - c.window);
    assert forall i | 0 <= i < |early| :: (early + batch)[i] == early[i];
    assert forall i | 0 <= i < |batch| :: (early + batch)[|early| + i] == batch[i];
    events := [];
    if early != [] {
      events := WholeBatch(c, Init(b), events, early);
    } else {
      assert b.rows + Acted(c, early, b.now) == b.rows;
    }
  }

  lemma ActionableIsEligible(c: Config, rows: seq<Action>, batch: seq<Alert>)
    requires Actionable(c, rows, batch)
    ensures forall k | 0 <= k < |batch| :: Eligible(c, batch[k])
  {
  }

  lemma ActedJoin(c: Config, rows: seq<Action>, a: seq<Alert>, b: seq<Alert>, now: real)
    ensures rows + Acted(c, a, now) + Acted(c, b, now) == rows + Acted(c, a + b, now)
  {
  }

  lemma CountAfter(c: Config, rows: seq<Action>, batch: seq<Alert>, now: real, lo: real)
    requires lo < now && CreatedSince(rows, lo) == 0 && forall i | 0 <= i < |rows| :: rows[i].created <= now
    ensures var later := rows + Acted(c, batch, now);
            Created(later, lo, now) == CreatedSince(later, lo) == |batch|
  {
    hide Created, CreatedSince;
    var later := rows + Acted(c, batch, now);
    CreatedBy(rows, lo, now);
    CreatedBy(later, lo, now);
    AllCreated(Acted(c, batch, now), lo, now);
    CreatedSplits(rows, Acted(c, batch, now), lo, now);
  }

  /* ---- when the maximum bounds every window ---- */

  /** No more actions since the start than the maximum in the interval of the window's length after `lo`. */
  ghost predicate Within(c: Config, b: Start, events: seq<Event>, lo: real) {
    var rows := Run(c, b, events).rows;
    |b.rows| <= |rows| && Created(rows[|b.rows|..], lo, lo + c.window) <= if c.maxActions > 0 then c.maxActions else 0
  }

  lemma NewRows(c: Config, b: Start, events: seq<Event>)
    ensures |b.rows| <= |Run(c, b, events).rows|
  {
    hide RunFrom, Grows;
    StartListens(b);
    RunGrows(c, Init(b), events);
    GrownLength(b.rows, Run(c, b, events).rows);
  }

  lemma IdleStep(c: Config, s: State, e: Event)
    requires c.maxActions <= 0 && (s.loop.Sleeping? || s.loop.Checking?)
    ensures var t := Apply(c, s, e); |t.rows| == |s.rows| && (t.loop.Sleeping? || t.loop.Checking?)
  {
    hide Ascending, CountEligible, Eligible, HasActive, DueRows;
  }

  /** With no action allowed the breaker is always tripped. */
  lemma {:induction false} AlwaysTripped(c: Config, b: Start, events: seq<Event>)
    requires c.maxActions <= 0
    ensures var s := Run(c, b, events); |s.rows| == |b.rows| && (s.loop.Sleeping? || s.loop.Checking?)
  {
    if events != [] {
      hide Apply;
      AlwaysTripped(c, b, events[..|events| - 1]);
      IdleStep(c, Run(c, b, events[..|events| - 1]), events[|events| - 1]);
    }
  }

  lemma QuietConfigs(c: Config, b: Start, events: seq<Event>, lo: real)
    requires b.Valid() && (c.maxActions <= 0 || c.window <= 0.0 || forall a: Alert :: !Eligible(c, a))
    ensures Within(c, b, events, lo)
  {
    hide Eligible, Run, Created, Start.Valid;
    NewRows(c, b, events);
    var rows, n := Run(c, b, events).rows, |b.rows|;
    if c.window <= 0.0 {
      NoneCreated(rows[n..], lo, lo + c.window);
    } else {
      if c.maxActions <= 0 {
        AlwaysTripped(c, b, events);
      } else {
        RunIsSafe(c, b, events);
        if |rows| > n {
          EligibleIff(c, rows[n].alert);
        }
      }
      NoneCreated(rows[n..], lo, lo + c.window);
    }
  }

  ghost predicate NoPending(rows: seq<Action>) {
    forall i | 0 <= i < |rows| :: rows[i].status != Pending
  }

  lemma NoPendingMeansInactive(rows: seq<Action>, ip: string)
    requires NoPending(rows)
    ensures !HasActive(rows, ip)
  {
  }

  /** The loop acts on an alert, and the listener undoes the action before the next one. */
  lemma ActAndUndo(c: Config, start: State, events: seq<Event>, now: real) returns (more: seq<Event>)
    requires var s := RunFrom(c, start, events);
             && s.loop.Handling? && s.loop.batch != [] && s.listener.Polling? && s.clock <= now
             && Eligible(c, s.loop.batch[0]) && NoPending(s.rows)
    ensures var s, t := RunFrom(c, start, events), RunFrom(c, start, more);
            && t.rows == s.rows + [Action(s.loop.batch[0], Undone, now, Some(now + c.blockFor))]
            && t.loop == Handling(s.loop.batch[1..]) && t.listener.Polling? && t.clock == now && t.checks == s.checks
  {
    hide RunFrom, Eligible, HasActive;
    var s := RunFrom(c, start, events);
    NoPendingMeansInactive(s.rows, s.loop.batch[0].ip);
    var e1 := HandleOne(c, start, events, now, true);
    var e2 := e1 + [ReadCallback(|s.rows|, false)];
    RunNext(c, start, e1, ReadCallback(|s.rows|, false));
    RunNext(c, start, e2, CommitCallback(true));
    more := e2 + [CommitCallback(true)];
  }

  lemma {:induction false} ActAndUndoAll(c: Config, start: State, events: seq<Event>, now: real)
    returns (more: seq<Event>)
    requires var s := RunFrom(c, start, events);
             && s.loop.Handling? && s.listener.Polling? && s.clock <= now && NoPending(s.rows)
             && forall k | 0 <= k < |s.loop.batch| :: Eligible(c, s.loop.batch[k])
    ensures var s, t := RunFrom(c, start, events), RunFrom(c, start, more);
            && |t.rows| == |s.rows| + |s.loop.batch|
            && forall i | |s.rows| <= i < |t.rows| :: t.rows[i].created == now
    ensures RunFrom(c, start, events).rows <= RunFrom(c, start, more).rows
    decreases |RunFrom(c, start, events).loop.batch|
  {
    hide RunFrom, Eligible;
    var s := RunFrom(c, start, events);
    if s.loop.batch == [] {
      more := events;
    } else {
      var next := ActAndUndo(c, start, events, now);
      var t := RunFrom(c, start, next);
      assert forall k | 0 <= k < |t.loop.batch| :: t.loop.batch[k] == s.loop.batch[k + 1];
      more := ActAndUndoAll(c, start, next, now);
      assert RunFrom(c, start, more).rows[|s.rows|] == t.rows[|s.rows|];
    }
  }

  /** The same alert `n` times over, with the ids 1, 2, … */
  function Repeated(a: Alert, n: nat): (r: seq<Alert>)
    ensures |r| == n && forall i | 0 <= i < n :: r[i] == a.(id := i + 1)
  {
    seq(n, i requires 0 <= i < n => a.(id := i + 1))
  }

  lemma EligibleById(c: Config, a: Alert, id: nat)
    ensures Eligible(c, a.(id := id)) == Eligible(c, a)
  {
  }

  /** One eligible client is enough: a batch of maximum + 1 alerts, each action undone before the next. */
  lemma OneClientOvershoots(c: Config, a: Alert) returns (events: seq<Event>)
    requires c.maxActions > 0 && c.window > 0.0 && Eligible(c, a)
    ensures !Within(c, Start([], 0, 0.0), events, 0.0 - c.window)
  {
    hide RunFrom, Eligible, CountEligible, Created;
    var b, batch := Start([], 0, 0.0), Repeated(a, c.maxActions + 1);
    var start := Init(b);
    NoEvents(c, start);
    var polled := PollAndCheck(c, start, batch, 0.0);
    forall k | 0 <= k < |batch| ensures Eligible(c, batch[k]) {
      EligibleById(c, a, k + 1);
    }
    events := ActAndUndoAll(c, start, polled, 0.0);
    var rows := Run(c, b, events).rows;
    assert rows[0..] == rows;
    AllCreated(rows, 0.0 - c.window, 0.0);
  }

  /**
   * Over configurations: from every start and over every run the maximum bounds the actions of every window exactly
   * when no action is allowed, the window is empty, or no alert is ever eligible.
   */
  lemma MaximumBoundsEveryWindowIff(c: Config)
    ensures (forall b: Start, events: seq<Event>, lo: real | b.Valid() :: Within(c, b, events, lo))
       <==> c.maxActions <= 0 || c.window <= 0.0 || forall a: Alert :: !Eligible(c, a)
  {
    hide Within, Eligible, Start.Valid;
    if c.maxActions <= 0 || c.window <= 0.0 || forall a: Alert :: !Eligible(c, a) {
      forall b: Start, events: seq<Event>, lo: real | b.Valid() ensures Within(c, b, events, lo) {
        QuietConfigs(c, b, events, lo);
      }
    } else {
      var a: Alert :| Eligible(c, a);
      var events := OneClientOvershoots(c, a);
      NewStartIsValid();
    }
  }

  lemma NewStartIsValid()
    ensures Start([], 0, 0.0).Valid()
  {
  }
}
