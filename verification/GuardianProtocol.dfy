/**
 * The Guardian's three tasks interleaved at their awaits: the alert loop with its circuit breaker, the expiry
 * task, and the listener for confirm and undo. Backend calls only succeed or fail here.
 */
module GuardianProtocol {
  import opened MitigationRows
  import opened Wrappers

  datatype Config = Config(minSeverity: string, sources: set<string>, whitelisted: string -> bool,
                           maxActions: int, window: real, blockFor: real)

  function SeverityOf(raw: string, default: nat): nat {
    match raw
    case "low" => 0
    case "medium" => 1
    case "high" => 2
    case "critical" => 3
    case _ => default
  }

  /** The filters of the loop; an absent source counts as "detector". */
  predicate Eligible(c: Config, a: Alert) {
    && SeverityOf(a.severity, 0) >= SeverityOf(c.minSeverity, 3)
    && a.ip != ""
    && (if a.source == "" then "detector" else a.source) in c.sources
    && !c.whitelisted(a.ip)
  }

  /** At least the configured severity, name by name; an unknown name in the configuration admits "critical" only. */
  ghost predicate SevereEnough(least: string, severity: string) {
    match least
    case "low" => true
    case "medium" => severity in {"medium", "high", "critical"}
    case "high" => severity in {"high", "critical"}
    case _ => severity == "critical"
  }

  /** What an alert must be for an action. */
  ghost predicate MayAct(c: Config, a: Alert) {
    && SevereEnough(c.minSeverity, a.severity)
    && a.ip != "" && !c.whitelisted(a.ip)
    && ((a.source == "" && "detector" in c.sources) || (a.source != "" && a.source in c.sources))
  }

  lemma EligibleIff(c: Config, a: Alert)
    ensures Eligible(c, a) <==> MayAct(c, a)
  {
  }

  /** Where the alert loop awaits. */
  datatype Loop = Sleeping | Checking(batch: seq<Alert>) | Handling(batch: seq<Alert>)
                | Blocking(alert: Alert, batch: seq<Alert>) | Inserting(alert: Alert, batch: seq<Alert>)

  datatype Expiry = Waiting | Expiring(todo: seq<nat>, done: seq<nat>)

  datatype Listener = Polling | Resolving(row: nat, outcome: Status)

  /** A batch that passed the breaker: the rows there were, the time, and its eligible alerts. */
  datatype Check = Check(rowsBefore: nat, time: real, eligible: nat)

  datatype State = State(rows: seq<Action>, lastSeen: nat, clock: real, loop: Loop, expiry: Expiry, listener: Listener,
                         checks: seq<Check>)

  datatype Event =
    | Poll(alerts: seq<Alert>)
    | CheckBreaker(now: real)
    | Consider
    | BlockCall(works: bool)
    | Insert(now: real)
    | LoopFails
    | SelectExpired(now: real)
    | UnblockExpired(works: bool)
    | CommitExpired
    | ExpiryFails
    | ReadCallback(row: nat, confirm: bool)
    | CommitCallback(works: bool)

  /** The breaker's count: everything created since, with no upper end. */
  function CreatedSince(rows: seq<Action>, lo: real): nat {
    if rows == [] then 0
    else CreatedSince(rows[..|rows| - 1], lo) + if rows[|rows| - 1].created > lo then 1 else 0
  }

  function CountEligible(c: Config, alerts: seq<Alert>): nat {
    if alerts == [] then 0 else (if Eligible(c, alerts[0]) then 1 else 0) + CountEligible(c, alerts[1..])
  }

  ghost predicate Ascending(alerts: seq<Alert>, above: nat) {
    && (forall i | 0 <= i < |alerts| :: alerts[i].id > above)
    && (forall i, j | 0 <= i < j < |alerts| :: alerts[i].id < alerts[j].id)
  }

  /** The ids the expiry query returns. */
  function DueRows(rows: seq<Action>, now: real): (ids: seq<nat>)
    ensures forall k | 0 <= k < |ids| :: ids[k] < |rows| && rows[ids[k]].status == Pending
  {
    if rows == [] then []
    else
      var r := rows[|rows| - 1];
      DueRows(rows[..|rows| - 1], now)
      + if IsDue(r, now) then [|rows| - 1] else []
  }

  function Marked(rows: seq<Action>, ids: seq<nat>, outcome: Status): (r: seq<Action>)
    ensures |r| == |rows|
    ensures forall i | 0 <= i < |r| :: r[i] == if i in ids then rows[i].(status := outcome) else rows[i]
  {
    seq(|rows|, i requires 0 <= i < |rows| => if i in ids then rows[i].(status := outcome) else rows[i])
  }

  ghost function LoopStep(c: Config, s: State, e: Event): State {
    match (e, s.loop)
    case (Poll(alerts), Sleeping) =>
      if alerts == [] || !Ascending(alerts, s.lastSeen) then s
      else s.(lastSeen := alerts[|alerts| - 1].id, loop := Checking(alerts))
    case (CheckBreaker(now), Checking(batch)) =>
      if now < s.clock then s
      else if CreatedSince(s.rows, now - c.window) >= c.maxActions then s.(clock := now, loop := Sleeping)
      else s.(clock := now, loop := Handling(batch),
              checks := s.checks + [Check(|s.rows|, now, CountEligible(c, batch))])
    case (Consider, Handling(batch)) =>
      if batch == [] then s.(loop := Sleeping)
      else if !Eligible(c, batch[0]) || HasActive(s.rows, batch[0].ip) then s.(loop := Handling(batch[1..]))
      else s.(loop := Blocking(batch[0], batch[1..]))
    case (BlockCall(works), Blocking(a, batch)) => s.(loop := if works then Inserting(a, batch) else Handling(batch))
    case (Insert(now), Inserting(a, batch)) =>
      if now < s.clock then s
      else s.(clock := now, loop := Handling(batch), rows := s.rows + [Action(a, Pending, now, Some(now + c.blockFor))])
    case (LoopFails, _) => s.(loop := Sleeping)
    case _ => s
  }

  ghost function ExpiryStep(s: State, e: Event): State {
    match (e, s.expiry)
    case (SelectExpired(now), Waiting) =>
      if now < s.clock then s else s.(clock := now, expiry := Expiring(DueRows(s.rows, now), []))
    case (UnblockExpired(works), Expiring(todo, done)) =>
      if todo == [] then s else s.(expiry := Expiring(todo[1..], if works then done + [todo[0]] else done))
    case (CommitExpired, Expiring(todo, done)) =>
      if todo != [] then s else s.(rows := Marked(s.rows, done, Expired), expiry := Waiting)
    case (ExpiryFails, _) => s.(expiry := Waiting)
    case _ => s
  }

  ghost function ListenerStep(s: State, e: Event): State {
    match (e, s.listener)
    case (ReadCallback(r, confirm), Polling) =>
      if r < |s.rows| && s.rows[r].status == Pending
      then s.(listener := Resolving(r, if confirm then Confirmed else Undone)) else s
    case (CommitCallback(works), Resolving(r, outcome)) =>
      var done := s.(listener := Polling);
      if !works || r >= |s.rows| then done
      else if outcome == Confirmed then done.(rows := s.rows[r := s.rows[r].(status := Confirmed, expiresAt := None)])
      else done.(rows := s.rows[r := s.rows[r].(status := outcome)])
    case _ => s
  }

  ghost function Apply(c: Config, s: State, e: Event): State {
    match e
    case SelectExpired(_) | UnblockExpired(_) | CommitExpired | ExpiryFails => ExpiryStep(s, e)
    case ReadCallback(_, _) | CommitCallback(_) => ListenerStep(s, e)
    case _ => LoopStep(c, s, e)
  }

  /** A start, or a restart over the table of an earlier life: every alert there is has been seen. */
  datatype Start = Start(rows: seq<Action>, lastAlert: nat, now: real) {
    ghost predicate Valid() {
      OnePending(rows) && forall i | 0 <= i < |rows| :: rows[i].alert.id <= lastAlert
    }
  }

  function Init(b: Start): State {
    State(b.rows, b.lastAlert, b.now, Sleeping, Waiting, Polling, [])
  }

  ghost function RunFrom(c: Config, s: State, events: seq<Event>): State {
    if events == [] then s
    else Apply(c, RunFrom(c, s, events[..|events| - 1]), events[|events| - 1])
  }

  ghost function Run(c: Config, b: Start, events: seq<Event>): State {
    RunFrom(c, Init(b), events)
  }

  lemma RunNext(c: Config, s: State, events: seq<Event>, e: Event)
    ensures RunFrom(c, s, events + [e]) == Apply(c, RunFrom(c, s, events), e)
  {
    assert (events + [e])[..|events|] == events;
  }

  lemma NoEvents(c: Config, s: State)
    ensures RunFrom(c, s, []) == s
  {
  }

  /* ---- what one step may do to the rows ---- */

  /** Rows are only appended; their alert and creation time stay; a resolved row never becomes pending again. */
  ghost predicate Grows(rows: seq<Action>, later: seq<Action>) {
    && |rows| <= |later|
    && forall i | 0 <= i < |rows| ::
         && later[i].alert == rows[i].alert && later[i].created == rows[i].created
         && (later[i].status == Pending ==> rows[i] == later[i])
  }

  /** The alerts a loop state still holds. */
  function Held(l: Loop): seq<Alert> {
    match l
    case Sleeping => []
    case Checking(batch) => batch
    case Handling(batch) => batch
    case Blocking(a, batch) => [a] + batch
    case Inserting(a, batch) => [a] + batch
  }

  /** No task will ever write "pending" on an old row. */
  ghost predicate OnlyResolves(s: State) {
    s.listener.Resolving? ==> s.listener.outcome in {Confirmed, Undone}
  }

  lemma RowsGrow(c: Config, s: State, e: Event)
    requires OnlyResolves(s)
    ensures Grows(s.rows, Apply(c, s, e).rows) && OnlyResolves(Apply(c, s, e))
  {
    hide Ascending, CreatedSince, CountEligible, Eligible, HasActive, DueRows;
  }

  lemma GrowsTrans(a: seq<Action>, b: seq<Action>, d: seq<Action>)
    requires Grows(a, b) && Grows(b, d)
    ensures Grows(a, d)
  {
  }

  lemma {:induction false} RunGrows(c: Config, s: State, events: seq<Event>)
    requires OnlyResolves(s)
    ensures Grows(s.rows, RunFrom(c, s, events).rows) && OnlyResolves(RunFrom(c, s, events))
  {
    if events == [] {
    } else {
      hide Apply, Grows, OnlyResolves;
      var before := events[..|events| - 1];
      RunGrows(c, s, before);
      RowsGrow(c, RunFrom(c, s, before), events[|events| - 1]);
      GrowsTrans(s.rows, RunFrom(c, s, before).rows, RunFrom(c, s, events).rows);
    }
  }

  /* ---- at most one pending action per client, at most one action per alert ---- */

  /** The client the loop is about to block has no pending action. */
  ghost predicate AboutToAct(c: Config, s: State) {
    s.loop.Blocking? || s.loop.Inserting? ==> Eligible(c, s.loop.alert) && !HasActive(s.rows, s.loop.alert.ip)
  }

  lemma GrowthKeepsInactive(rows: seq<Action>, later: seq<Action>, ip: string)
    requires Grows(rows, later) && |later| == |rows| && !HasActive(rows, ip)
    ensures !HasActive(later, ip)
  {
  }

  lemma GrowthKeepsOnePending(rows: seq<Action>, later: seq<Action>)
    requires Grows(rows, later) && |later| == |rows| && OnePending(rows)
    ensures OnePending(later)
  {
  }

  lemma OnePendingStep(c: Config, s: State, e: Event)
    requires OnlyResolves(s) && OnePending(s.rows) && AboutToAct(c, s)
    ensures OnePending(Apply(c, s, e).rows) && AboutToAct(c, Apply(c, s, e))
  {
    hide Ascending, CreatedSince, CountEligible, Eligible, HasActive, DueRows, OnePending, Grows, OnlyResolves;
    var t := Apply(c, s, e);
    RowsGrow(c, s, e);
    if e.Insert? && t.rows != s.rows {
      AppendKeepsOnePending(s.rows, t.rows[|s.rows|]);
    } else {
      GrowthKeepsOnePending(s.rows, t.rows);
      if s.loop.Blocking? || s.loop.Inserting? {
        GrowthKeepsInactive(s.rows, t.rows, s.loop.alert.ip);
      }
    }
  }

  /**
   * The alerts of the rows after the first `n` and then the held ones ascend, above those of the first `n` rows, and
   * all of them are seen: no alert can come up twice.
   */
  ghost predicate InOrder(n: nat, s: State) {
    && n <= |s.rows|
    && (forall i, j | 0 <= i < j < |s.rows| && n <= j :: s.rows[i].alert.id < s.rows[j].alert.id)
    && (forall i | 0 <= i < |s.rows| :: s.rows[i].alert.id <= s.lastSeen)
    && (forall k | 0 <= k < |Held(s.loop)| :: Held(s.loop)[k].id <= s.lastSeen)
    && (forall k, m | 0 <= k < m < |Held(s.loop)| :: Held(s.loop)[k].id < Held(s.loop)[m].id)
    && (forall i, k | 0 <= i < |s.rows| && 0 <= k < |Held(s.loop)| :: s.rows[i].alert.id < Held(s.loop)[k].id)
  }

  /** The alerts of the rows, which no resolving changes. */
  lemma InOrderByAlerts(n: nat, s: State, t: State)
    requires InOrder(n, s) && |t.rows| == |s.rows| && t.lastSeen == s.lastSeen
    requires forall i | 0 <= i < |s.rows| :: t.rows[i].alert == s.rows[i].alert
    requires Held(t.loop) == Held(s.loop) || Held(t.loop) == []
             || (Held(s.loop) != [] && Held(t.loop) == Held(s.loop)[1..])
    ensures InOrder(n, t)
  {
    hide Held;
    assert forall k | 0 <= k < |Held(t.loop)| :: Held(t.loop)[k] == Held(s.loop)[k + |Held(s.loop)| - |Held(t.loop)|];
  }

  lemma PollInOrder(c: Config, n: nat, s: State, alerts: seq<Alert>)
    requires InOrder(n, s)
    ensures InOrder(n, Apply(c, s, Poll(alerts)))
  {
    hide CreatedSince, CountEligible, Eligible, HasActive;
    var t := Apply(c, s, Poll(alerts));
    if t != s {
      assert Held(t.loop) == alerts;
      assert forall k | 0 <= k < |alerts| :: alerts[k].id <= alerts[|alerts| - 1].id;
    }
  }

  lemma InsertInOrder(c: Config, n: nat, s: State, now: real)
    requires InOrder(n, s)
    ensures InOrder(n, Apply(c, s, Insert(now)))
  {
    hide CreatedSince, CountEligible, Eligible, HasActive, Ascending;
    var t := Apply(c, s, Insert(now));
    if t != s {
      var held := Held(s.loop);
      assert held[0] == s.loop.alert && Held(t.loop) == held[1..];
      assert t.rows[..|s.rows|] == s.rows && t.rows[|s.rows|].alert == held[0];
    }
  }

  lemma InOrderStep(c: Config, n: nat, s: State, e: Event)
    requires OnlyResolves(s) && InOrder(n, s)
    ensures InOrder(n, Apply(c, s, e))
  {
    hide Ascending, CreatedSince, CountEligible, Eligible, HasActive, DueRows, InOrder, OnlyResolves;
    RowsGrow(c, s, e);
    if e.Poll? {
      PollInOrder(c, n, s, e.alerts);
    } else if e.Insert? {
      InsertInOrder(c, n, s, e.now);
    } else {
      InOrderByAlerts(n, s, Apply(c, s, e));
    }
  }

  ghost predicate EligibleRows(c: Config, n: nat, rows: seq<Action>) {
    forall i | n <= i < |rows| :: MayAct(c, rows[i].alert)
  }

  lemma EligibleStep(c: Config, n: nat, s: State, e: Event)
    requires OnlyResolves(s) && AboutToAct(c, s) && EligibleRows(c, n, s.rows)
    ensures EligibleRows(c, n, Apply(c, s, e).rows)
  {
    hide Ascending, CreatedSince, CountEligible, Eligible, MayAct, HasActive, DueRows, OnlyResolves;
    if s.loop.Inserting? {
      EligibleIff(c, s.loop.alert);
    }
    RowsGrow(c, s, e);
  }

  ghost predicate Safe(c: Config, n: nat, s: State) {
    OnlyResolves(s) && OnePending(s.rows) && AboutToAct(c, s) && InOrder(n, s) && EligibleRows(c, n, s.rows)
  }

  /** Every interleaving, from every start: one pending action per client, one per alert, for eligible alerts only. */
  lemma {:induction false} RunIsSafe(c: Config, b: Start, events: seq<Event>)
    requires b.Valid()
    ensures Safe(c, |b.rows|, Run(c, b, events))
  {
    if events == [] {
    } else {
      hide Apply, Safe, Start.Valid;
      var s := Run(c, b, events[..|events| - 1]);
      RunIsSafe(c, b, events[..|events| - 1]);
      SafeStep(c, |b.rows|, s, events[|events| - 1]);
    }
  }

  lemma SafeStep(c: Config, n: nat, s: State, e: Event)
    requires Safe(c, n, s)
    ensures Safe(c, n, Apply(c, s, e))
  {
    hide Apply, OnlyResolves, OnePending, AboutToAct, InOrder, EligibleRows;
    RowsGrow(c, s, e);
    OnePendingStep(c, s, e);
    InOrderStep(c, n, s, e);
    EligibleStep(c, n, s, e);
  }

  /** Of the actions since the start no two belong to one alert, and none to a seen alert or a whitelisted client. */
  lemma OneActionPerAlert(c: Config, b: Start, events: seq<Event>, i: nat, j: nat)
    requires b.Valid()
    requires var rows := Run(c, b, events).rows;
             |b.rows| <= i < |rows| && j < |rows| && rows[i].alert.id == rows[j].alert.id
    ensures i == j
    ensures var rows := Run(c, b, events).rows; b.lastAlert < rows[i].alert.id && !c.whitelisted(rows[i].alert.ip)
  {
    hide RunFrom;
    RunIsSafe(c, b, events);
    RunIsSafe(c, b, []);
    NoEvents(c, Init(b));
    OldAlertsNeverAct(c, |b.rows|, Init(b), events, i);
  }

  /* ---- skipped alerts are not replayed ---- */

  /** Alerts up to this id can no longer cause an action. */
  function Floor(s: State): int {
    if Held(s.loop) == [] then s.lastSeen else Held(s.loop)[0].id - 1
  }

  lemma FloorStep(c: Config, n: nat, s: State, e: Event)
    requires InOrder(n, s)
    ensures var t := Apply(c, s, e);
            Floor(s) <= Floor(t) && forall i | |s.rows| <= i < |t.rows| :: t.rows[i].alert.id > Floor(s)
  {
    hide CreatedSince, CountEligible, Eligible, HasActive, DueRows;
    var t, held := Apply(c, s, e), Held(s.loop);
    if e.Poll? && t != s {
      assert Held(t.loop) == e.alerts;
    } else {
      assert Held(t.loop) == held || Held(t.loop) == [] || (held != [] && Held(t.loop) == held[1..]);
    }
  }

  lemma {:induction false} FloorRises(c: Config, n: nat, s: State, events: seq<Event>)
    requires InOrder(n, s) && OnlyResolves(s)
    ensures var t := RunFrom(c, s, events);
            && InOrder(n, t) && OnlyResolves(t) && Floor(s) <= Floor(t) && |s.rows| <= |t.rows|
            && forall i | |s.rows| <= i < |t.rows| :: t.rows[i].alert.id > Floor(s)
  {
    if events == [] {
    } else {
      hide Apply, InOrder, Floor, OnlyResolves;
      var m := RunFrom(c, s, events[..|events| - 1]);
      FloorRises(c, n, s, events[..|events| - 1]);
      InOrderStep(c, n, m, events[|events| - 1]);
      FloorStep(c, n, m, events[|events| - 1]);
      RowsGrow(c, m, events[|events| - 1]);
    }
  }

  lemma OldAlertsNeverAct(c: Config, n: nat, s: State, events: seq<Event>, i: nat)
    requires InOrder(n, s) && OnlyResolves(s) && |s.rows| <= i < |RunFrom(c, s, events).rows|
    ensures RunFrom(c, s, events).rows[i].alert.id > Floor(s)
  {
    hide InOrder, Floor, OnlyResolves;
    FloorRises(c, n, s, events);
  }

  /** A batch that found the breaker tripped is given up for good: no later action belongs to any of its alerts. */
  lemma PausedBatchIsNotReplayed(c: Config, n: nat, s: State, now: real, events: seq<Event>, i: nat, k: nat)
    requires InOrder(n, s) && OnlyResolves(s) && s.loop.Checking? && now >= s.clock
    requires CreatedSince(s.rows, now - c.window) >= c.maxActions
    requires var t := RunFrom(c, Apply(c, s, CheckBreaker(now)), events); |s.rows| <= i < |t.rows| && k < |s.loop.batch|
    ensures var t := RunFrom(c, Apply(c, s, CheckBreaker(now)), events); t.rows[i].alert.id != s.loop.batch[k].id
  {
    hide CreatedSince, CountEligible, Ascending;
    var t := Apply(c, s, CheckBreaker(now));
    InOrderStep(c, n, s, CheckBreaker(now));
    assert t.loop.Sleeping? && t.rows == s.rows && Floor(t) == s.lastSeen;
    assert Held(s.loop)[k].id <= s.lastSeen;
    OldAlertsNeverAct(c, n, t, events, i);
  }

  /* ---- when a confirmation is final ---- */

  /** The expiry task has row `r` in its hands. */
  ghost predicate Selected(s: State, r: nat) {
    s.expiry.Expiring? && (r in s.expiry.todo || r in s.expiry.done)
  }

  /** The listener never resolves a row that is already confirmed or undone. */
  ghost predicate ListenerFresh(s: State) {
    s.listener.Resolving? ==> s.listener.row < |s.rows| && s.rows[s.listener.row].status in {Pending, Expired}
  }

  lemma ListenerFreshStep(c: Config, s: State, e: Event)
    requires ListenerFresh(s)
    ensures ListenerFresh(Apply(c, s, e))
  {
    hide Ascending, CreatedSince, CountEligible, Eligible, HasActive, DueRows;
  }

  lemma {:induction false} RunKeepsListenerFresh(c: Config, s: State, events: seq<Event>)
    requires ListenerFresh(s)
    ensures ListenerFresh(RunFrom(c, s, events))
  {
    if events == [] {
    } else {
      hide Apply, ListenerFresh;
      RunKeepsListenerFresh(c, s, events[..|events| - 1]);
      ListenerFreshStep(c, RunFrom(c, s, events[..|events| - 1]), events[|events| - 1]);
    }
  }

  ghost predicate ConfirmedAt(s: State, r: nat) {
    r < |s.rows| && s.rows[r].status == Confirmed
  }

  lemma ConfirmedStep(c: Config, s: State, e: Event, r: nat)
    requires ListenerFresh(s) && ConfirmedAt(s, r) && !Selected(s, r)
    ensures ConfirmedAt(Apply(c, s, e), r) && !Selected(Apply(c, s, e), r)
  {
    hide Ascending, CreatedSince, CountEligible, Eligible, HasActive, DueRows;
  }

  lemma {:induction false} UnselectedStaysConfirmed(c: Config, s: State, events: seq<Event>, r: nat)
    requires ListenerFresh(s) && ConfirmedAt(s, r) && !Selected(s, r)
    ensures ConfirmedAt(RunFrom(c, s, events), r) && !Selected(RunFrom(c, s, events), r)
  {
    if events == [] {
    } else {
      hide Apply, ListenerFresh, ConfirmedAt, Selected;
      var before := events[..|events| - 1];
      UnselectedStaysConfirmed(c, s, before, r);
      RunKeepsListenerFresh(c, s, before);
      ConfirmedStep(c, RunFrom(c, s, before), events[|events| - 1], r);
    }
  }

  /** The expiry task finishes its pass, every call working. */
  lemma {:induction false} FinishCalls(c: Config, s: State, events: seq<Event>) returns (more: seq<Event>)
    requires RunFrom(c, s, events).expiry.Expiring?
    ensures var m, t := RunFrom(c, s, events), RunFrom(c, s, more);
            t == m.(expiry := Expiring([], m.expiry.done + m.expiry.todo))
    decreases |RunFrom(c, s, events).expiry.todo|
  {
    hide RunFrom;
    var m := RunFrom(c, s, events);
    if m.expiry.todo == [] {
      more := events;
      assert m.expiry.done + [] == m.expiry.done;
    } else {
      RunNext(c, s, events, UnblockExpired(true));
      more := FinishCalls(c, s, events + [UnblockExpired(true)]);
      assert m.expiry.todo == [m.expiry.todo[0]] + m.expiry.todo[1..];
      assert m.expiry.done + [m.expiry.todo[0]] + m.expiry.todo[1..] == m.expiry.done + m.expiry.todo;
    }
  }

  lemma SelectedIsOverwritten(c: Config, s: State, r: nat) returns (events: seq<Event>)
    requires ConfirmedAt(s, r) && Selected(s, r)
    ensures !ConfirmedAt(RunFrom(c, s, events), r)
  {
    hide RunFrom;
    NoEvents(c, s);
    events := FinishCalls(c, s, []);
    RunNext(c, s, events, CommitExpired);
    assert r in s.expiry.done + s.expiry.todo;
    events := events + [CommitExpired];
  }

  /**
   * A confirmation is final exactly when the expiry task does not have the row in its hands at that moment: then no
   * continuation of any task changes it, and otherwise the rest of the expiry pass alone does.
   */
  lemma ConfirmationIsFinalIff(c: Config, b: Start, events: seq<Event>, r: nat)
    requires ConfirmedAt(Run(c, b, events), r)
    ensures var s := Run(c, b, events);
            (forall more: seq<Event> :: ConfirmedAt(RunFrom(c, s, more), r)) <==> !Selected(s, r)
  {
    hide RunFrom, ConfirmedAt, Selected;
    var s := Run(c, b, events);
    StartListens(b);
    RunKeepsListenerFresh(c, Init(b), events);
    if Selected(s, r) {
      var more := SelectedIsOverwritten(c, s, r);
    } else {
      forall more: seq<Event>
        ensures ConfirmedAt(RunFrom(c, s, more), r)
      {
        UnselectedStaysConfirmed(c, s, more, r);
      }
    }
  }

  lemma StartListens(b: Start)
    ensures ListenerFresh(Init(b)) && OnlyResolves(Init(b))
  {
  }
}
