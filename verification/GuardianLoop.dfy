/** Uninterrupted passes of the Guardian's alert loop, as runs of the protocol. */
module GuardianLoop {
  import opened GuardianProtocol
  import opened MitigationRows
  import opened Wrappers

  /** What the loop does with the first alert of its batch when nothing interrupts it. */
  function Handled(c: Config, s: State, now: real, works: bool): State
    requires s.loop.Handling? && s.loop.batch != []
  {
    var a, rest := s.loop.batch[0], s.loop.batch[1..];
    if Eligible(c, a) && !HasActive(s.rows, a.ip) && works
    then s.(loop := Handling(rest), clock := now, rows := s.rows + [Action(a, Pending, now, Some(now + c.blockFor))])
    else s.(loop := Handling(rest))
  }

  lemma HandleOne(c: Config, start: State, events: seq<Event>, now: real, works: bool) returns (more: seq<Event>)
    requires var s := RunFrom(c, start, events); s.loop.Handling? && s.loop.batch != [] && now >= s.clock
    ensures RunFrom(c, start, more) == Handled(c, RunFrom(c, start, events), now, works)
  {
    hide RunFrom, Eligible, HasActive, Ascending, CreatedSince, CountEligible;
    var s := RunFrom(c, start, events);
    more := events + [Consider];
    RunNext(c, start, events, Consider);
    if Eligible(c, s.loop.batch[0]) && !HasActive(s.rows, s.loop.batch[0].ip) {
      RunNext(c, start, more, BlockCall(works));
      more := more + [BlockCall(works)];
      if works {
        RunNext(c, start, more, Insert(now));
        more := more + [Insert(now)];
      }
    }
  }

  /** The beginning of a pass: poll, and ask the breaker. */
  lemma PollAndCheck(c: Config, s: State, alerts: seq<Alert>, now: real) returns (events: seq<Event>)
    requires s.loop.Sleeping? && alerts != [] && Ascending(alerts, s.lastSeen) && now >= s.clock
    ensures var polled := s.(lastSeen := alerts[|alerts| - 1].id, clock := now);
            RunFrom(c, s, events)
            == if CreatedSince(s.rows, now - c.window) >= c.maxActions then polled
               else polled.(loop := Handling(alerts),
                            checks := s.checks + [Check(|s.rows|, now, CountEligible(c, alerts))])
  {
    hide RunFrom, CreatedSince, CountEligible, Ascending;
    NoEvents(c, s);
    RunNext(c, s, [], Poll(alerts));
    RunNext(c, s, [] + [Poll(alerts)], CheckBreaker(now));
    events := [] + [Poll(alerts)] + [CheckBreaker(now)];
  }

  /** The end of a pass: nothing is left of the batch. */
  lemma BatchDone(c: Config, start: State, events: seq<Event>) returns (more: seq<Event>)
    requires RunFrom(c, start, events).loop == Handling([])
    ensures RunFrom(c, start, more) == RunFrom(c, start, events).(loop := Sleeping)
  {
    hide RunFrom, Eligible, HasActive;
    more := events + [Consider];
    RunNext(c, start, events, Consider);
  }

  /** The rows that a batch adds when each of its alerts is acted on at time `now`. */
  function Acted(c: Config, batch: seq<Alert>, now: real): (r: seq<Action>)
    ensures |r| == |batch|
    ensures forall i | 0 <= i < |r| :: r[i] == Action(batch[i], Pending, now, Some(now + c.blockFor))
  {
    seq(|batch|, i requires 0 <= i < |batch| => Action(batch[i], Pending, now, Some(now + c.blockFor)))
  }

  /** Eligible alerts for clients that have no pending action and are all different. */
  ghost predicate Actionable(c: Config, rows: seq<Action>, batch: seq<Alert>) {
    && (forall k | 0 <= k < |batch| :: Eligible(c, batch[k]) && !HasActive(rows, batch[k].ip))
    && (forall k, m | 0 <= k < m < |batch| :: batch[k].ip != batch[m].ip)
  }

  lemma ActionableRest(c: Config, rows: seq<Action>, batch: seq<Alert>, now: real)
    requires batch != [] && Actionable(c, rows, batch)
    ensures Actionable(c, rows + [Action(batch[0], Pending, now, Some(now + c.blockFor))], batch[1..])
  {
    hide Eligible, HasActive;
    var a := Action(batch[0], Pending, now, Some(now + c.blockFor));
    forall k | 0 <= k < |batch[1..]|
      ensures Eligible(c, batch[1..][k]) && !HasActive(rows + [a], batch[1..][k].ip)
    {
      assert batch[1..][k] == batch[k + 1] && batch[0].ip != batch[k + 1].ip;
      InactiveAfterAppend(rows, a, batch[k + 1].ip);
    }
  }

  /** Uninterrupted, the loop acts on every alert of an actionable batch. */
  lemma {:induction false} HandleAll(c: Config, start: State, events: seq<Event>, now: real) returns (more: seq<Event>)
    requires var s := RunFrom(c, start, events);
             s.loop.Handling? && Actionable(c, s.rows, s.loop.batch) && now >= s.clock
    ensures var s, t := RunFrom(c, start, events), RunFrom(c, start, more);
            t == s.(loop := Handling([]), rows := s.rows + Acted(c, s.loop.batch, now),
                    clock := if s.loop.batch == [] then s.clock else now)
    decreases |RunFrom(c, start, events).loop.batch|
  {
    hide RunFrom, Eligible, HasActive, Actionable, Acted;
    var s := RunFrom(c, start, events);
    if s.loop.batch == [] {
      more := events;
      ActedNext(c, s.loop.batch, now);
      assert s.rows + [] == s.rows;
    } else {
      ActionableFirst(c, s.rows, s.loop.batch);
      ActionableRest(c, s.rows, s.loop.batch, now);
      ActedNext(c, s.loop.batch, now);
      more := HandleOne(c, start, events, now, true);
      more := HandleAll(c, start, more, now);
      var a := Action(s.loop.batch[0], Pending, now, Some(now + c.blockFor));
      assert s.rows + [a] + Acted(c, s.loop.batch[1..], now) == s.rows + ([a] + Acted(c, s.loop.batch[1..], now));
    }
  }

  lemma ActionableFirst(c: Config, rows: seq<Action>, batch: seq<Alert>)
    requires batch != [] && Actionable(c, rows, batch)
    ensures Eligible(c, batch[0]) && !HasActive(rows, batch[0].ip)
  {
  }

  lemma ActedNext(c: Config, batch: seq<Alert>, now: real)
    ensures Acted(c, batch, now) == if batch == [] then []
            else [Action(batch[0], Pending, now, Some(now + c.blockFor))] + Acted(c, batch[1..], now)
  {
  }

  /** One eligible alert, handled without interruption, gives one pending action. */
  lemma OneAction(c: Config, b: Start, a: Alert) returns (events: seq<Event>)
    requires b.rows == [] && c.maxActions > 0 && Eligible(c, a) && b.lastAlert < a.id
    ensures Run(c, b, events)
         == State([Action(a, Pending, b.now, Some(b.now + c.blockFor))], a.id, b.now, Handling([]), Waiting, Polling,
                  [Check(0, b.now, CountEligible(c, [a]))])
  {
    hide RunFrom, Eligible, CountEligible;
    var start, now := Init(b), b.now;
    events := PollAndCheck(c, start, [a], now);
    assert RunFrom(c, start, events).loop == Handling([a]) && [a][1..] == [];
    assert [] + [Check(0, now, CountEligible(c, [a]))] == [Check(0, now, CountEligible(c, [a]))];
    events := HandleOne(c, start, events, now, true);
  }

  lemma OneDueRow(r: Action, now: real)
    requires r.status == Pending && r.expiresAt.Some? && r.expiresAt.value < now
    ensures DueRows([r], now) == [0]
  {
    assert [r][..0] == [];
    assert DueRows([], now) == [];
  }

  /**
   * A confirmation is not final: the expiry task selects a due action, the listener confirms it ("stays blocked"),
   * and the expiry task then unblocks the client and writes "expired" over the confirmation.
   */
  lemma ConfirmationIsOverwritten(c: Config, b: Start, a: Alert, later: real) returns (events: seq<Event>)
    requires b.rows == [] && c.maxActions > 0 && Eligible(c, a) && b.lastAlert < a.id
    requires later >= b.now && later > b.now + c.blockFor
    ensures Run(c, b, events).rows == [Action(a, Expired, b.now, None)]
    ensures ReadCallback(0, true) in events && CommitCallback(true) in events
  {
    hide RunFrom, Eligible, CountEligible, DueRows;
    var start, r := Init(b), Action(a, Pending, b.now, Some(b.now + c.blockFor));
    events := OneAction(c, b, a);
    OneDueRow(r, later);
    var e1 := events + [SelectExpired(later)];
    var e2 := e1 + [ReadCallback(0, true)];
    var e3 := e2 + [CommitCallback(true)];
    var e4 := e3 + [UnblockExpired(true)];
    RunNext(c, start, events, SelectExpired(later));
    RunNext(c, start, e1, ReadCallback(0, true));
    RunNext(c, start, e2, CommitCallback(true));
    RunNext(c, start, e3, UnblockExpired(true));
    RunNext(c, start, e4, CommitExpired);
    assert RunFrom(c, start, e4).expiry == Expiring([], [0]);
    events := e4 + [CommitExpired];
  }

  /* ---- one uninterrupted pass of the alert loop ---- */

  class GuardianEngine {
    const config: Config
    var rows: seq<Action>
    var lastSeen: nat
    var pausedNotified: bool
    ghost var clock: real
    ghost var checks: seq<Check>

    /** A start over the stored table; `lastAlert` is the newest alert there is. */
    constructor (config: Config, stored: seq<Action>, lastAlert: nat, ghost now: real)
      ensures this.config == config && Abs() == Init(Start(stored, lastAlert, now)) && !pausedNotified
    {
      this.config, rows, lastSeen, pausedNotified := config, stored, lastAlert, false;
      clock, checks := now, [];
    }

    ghost function Abs(): State
      reads this
    {
      State(rows, lastSeen, clock, Sleeping, Waiting, Polling, checks)
    }

    /** Counts the recent rows; says so once for as long as the breaker stays tripped. */
    method CircuitBreakerTripped(now: real) returns (tripped: bool, notified: bool)
      modifies this`pausedNotified
      ensures tripped <==> CreatedSince(rows, now - config.window) >= config.maxActions
      ensures pausedNotified == tripped && notified == (tripped && !old(pausedNotified))
    {
      var count: nat := 0;
      var i := 0;
      while i < |rows|
        invariant i <= |rows| && count == CreatedSince(rows[..i], now - config.window)
      {
        assert rows[..i + 1][..i] == rows[..i];
        if rows[i].created > now - config.window {
          count := count + 1;
        }
        i := i + 1;
      }
      assert rows[..i] == rows;
      tripped := count >= config.maxActions;
      notified := tripped && !pausedNotified;
      pausedNotified := tripped;
    }

    /** `works(id)` says whether the backend call for that alert succeeds. */
    method Pass(alerts: seq<Alert>, now: real, works: nat -> bool) returns (paused: bool)
      requires Ascending(alerts, lastSeen) && now >= clock
      modifies this
      ensures exists events :: Abs() == RunFrom(config, old(Abs()), events)
      ensures paused <==> alerts != [] && CreatedSince(old(rows), now - config.window) >= config.maxActions
      ensures lastSeen == if alerts == [] then old(lastSeen) else alerts[|alerts| - 1].id
      ensures old(rows) <= rows && (paused ==> rows == old(rows))
      ensures forall i | |old(rows)| <= i < |rows| ::
                && MayAct(config, rows[i].alert) && works(rows[i].alert.id) && rows[i].alert in alerts
                && rows[i] == Action(rows[i].alert, Pending, now, Some(now + config.blockFor))
      ensures !paused ==> forall k | 0 <= k < |alerts| && MayAct(config, alerts[k]) && works(alerts[k].id) ::
                            HasActive(rows, alerts[k].ip)
    {
      hide RunFrom, Apply, LoopStep, CreatedSince, CountEligible, Eligible, MayAct, HasActive, Ascending;
      ghost var start := Abs();
      paused := false;
      if alerts == [] {
        NoEvents(config, start);
        return;
      }
      ghost var events := PollAndCheck(config, start, alerts, now);
      lastSeen := alerts[|alerts| - 1].id;
      var tripped, _ := CircuitBreakerTripped(now);
      clock := now;
      if tripped {
        paused := true;
        return;
      }
      checks := checks + [Check(|rows|, now, CountEligible(config, alerts))];
      ghost var passed := checks;
      var i := 0;
      assert alerts[0..] == alerts;
      while i < |alerts|
        invariant i <= |alerts| && clock == now && checks == passed && lastSeen == alerts[|alerts| - 1].id
        invariant RunFrom(config, start, events) == Abs().(loop := Handling(alerts[i..]))
        invariant start.rows <= rows
        invariant forall j | |start.rows| <= j < |rows| ::
                    && MayAct(config, rows[j].alert) && works(rows[j].alert.id) && rows[j].alert in alerts
                    && rows[j] == Action(rows[j].alert, Pending, now, Some(now + config.blockFor))
        invariant forall k | 0 <= k < i && MayAct(config, alerts[k]) && works(alerts[k].id) ::
                    HasActive(rows, alerts[k].ip)
      {
        var a := alerts[i];
        ghost var was := rows;
        EligibleIff(config, a);
        events := HandleOne(config, start, events, now, works(a.id));
        assert alerts[i..][1..] == alerts[i + 1..];
        if Eligible(config, a) && !HasActive(rows, a.ip) && works(a.id) {
          rows := rows + [Action(a, Pending, now, Some(now + config.blockFor))];
          ActionsStayActive(was, rows[|was|]);
        }
        i := i + 1;
      }
      events := BatchDone(config, start, events);
    }
  }
}
