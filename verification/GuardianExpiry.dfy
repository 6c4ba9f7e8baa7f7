/** The expiry task never releases a client early, however the tasks interleave. */
module GuardianExpiry {
  import opened GuardianProtocol
  import opened MitigationRows
  import opened Wrappers

  /** When the block of row `i` ends: as stored at the start, or `blockFor` after the row was made. */
  ghost function EndOf(c: Config, b: Start, s: State, i: nat): Option<real>
    requires i < |s.rows|
  {
    if i < |b.rows| then b.rows[i].expiresAt else Some(s.rows[i].created + c.blockFor)
  }

  /** The expiry task has looked for due rows at a time after the end of row `i`. */
  ghost predicate LookedAfter(c: Config, b: Start, events: seq<Event>, s: State, i: nat)
    requires i < |s.rows|
  {
    EndOf(c, b, s, i).Some?
    && exists k | 0 <= k < |events| :: events[k].SelectExpired? && events[k].now > EndOf(c, b, s, i).value
  }

  ghost predicate ExpiredSince(b: Start, s: State, i: nat) {
    i < |s.rows| && s.rows[i].status == Expired && (i < |b.rows| ==> b.rows[i].status != Expired)
  }

  ghost predicate NoneEarly(c: Config, b: Start, events: seq<Event>, s: State) {
    && |b.rows| <= |s.rows|
    && (forall i | 0 <= i < |s.rows| && s.rows[i].status == Pending :: s.rows[i].expiresAt == EndOf(c, b, s, i))
    && (forall i: nat | Selected(s, i) :: i < |s.rows| && LookedAfter(c, b, events, s, i))
    && (forall i: nat | ExpiredSince(b, s, i) :: LookedAfter(c, b, events, s, i))
  }

  lemma {:induction false} DueRowsAre(rows: seq<Action>, now: real)
    ensures forall i: nat :: i in DueRows(rows, now) <==>
              i < |rows| && rows[i].status == Pending && rows[i].expiresAt.Some? && rows[i].expiresAt.value < now
  {
    if rows != [] {
      DueRowsAre(rows[..|rows| - 1], now);
    }
  }

  lemma LookedStays(c: Config, b: Start, events: seq<Event>, e: Event, s: State, t: State, i: nat)
    requires OnlyResolves(s) && Grows(s.rows, t.rows) && i < |s.rows| && LookedAfter(c, b, events, s, i)
    ensures LookedAfter(c, b, events + [e], t, i)
  {
    assert EndOf(c, b, t, i) == EndOf(c, b, s, i);
    var k :| 0 <= k < |events| && events[k].SelectExpired? && events[k].now > EndOf(c, b, s, i).value;
    assert (events + [e])[k] == events[k];
  }

  lemma PendingEnds(c: Config, b: Start, s: State, e: Event, i: nat)
    requires OnlyResolves(s) && |b.rows| <= |s.rows|
    requires forall j | 0 <= j < |s.rows| && s.rows[j].status == Pending :: s.rows[j].expiresAt == EndOf(c, b, s, j)
    requires var t := Apply(c, s, e); i < |t.rows| && t.rows[i].status == Pending
    ensures var t := Apply(c, s, e); t.rows[i].expiresAt == EndOf(c, b, t, i)
  {
    hide Ascending, CreatedSince, CountEligible, Eligible, HasActive, DueRows;
    RowsGrow(c, s, e);
  }

  lemma SelectedEarlier(c: Config, s: State, e: Event, i: nat)
    requires Selected(Apply(c, s, e), i)
    ensures !e.SelectExpired? ==> Selected(s, i)
    ensures e.SelectExpired? ==> Selected(s, i) || (Apply(c, s, e).rows == s.rows && i in DueRows(s.rows, e.now))
  {
    hide Ascending, CreatedSince, CountEligible, Eligible, HasActive, DueRows;
    if e.UnblockExpired? && s.expiry.Expiring? && s.expiry.todo != [] {
      assert forall j | j in s.expiry.todo[1..] :: j in s.expiry.todo;
      assert s.expiry.todo[0] in s.expiry.todo;
    }
  }

  lemma ExpiredEarlier(c: Config, b: Start, s: State, e: Event, i: nat)
    requires OnlyResolves(s) && |b.rows| <= |s.rows| && ExpiredSince(b, Apply(c, s, e), i)
    ensures i < |s.rows| && (ExpiredSince(b, s, i) || Selected(s, i))
  {
    hide Ascending, CreatedSince, CountEligible, Eligible, HasActive, DueRows;
  }

  lemma NoneEarlySelected(c: Config, b: Start, events: seq<Event>, s: State, e: Event, i: nat)
    requires OnlyResolves(s) && NoneEarly(c, b, events, s) && Selected(Apply(c, s, e), i)
    ensures i < |Apply(c, s, e).rows| && LookedAfter(c, b, events + [e], Apply(c, s, e), i)
  {
    hide Apply, Selected, OnlyResolves, LookedAfter, Grows;
    var t := Apply(c, s, e);
    RowsGrow(c, s, e);
    SelectedEarlier(c, s, e, i);
    if Selected(s, i) {
      LongerRows(s.rows, t.rows);
      LookedStays(c, b, events, e, s, t, i);
    } else {
      DueRowsAre(s.rows, e.now);
      JustLooked(c, b, events, e, t, i);
    }
  }

  lemma LongerRows(rows: seq<Action>, later: seq<Action>)
    requires Grows(rows, later)
    ensures |rows| <= |later|
  {
  }

  lemma JustLooked(c: Config, b: Start, events: seq<Event>, e: Event, t: State, i: nat)
    requires i < |t.rows| && e.SelectExpired? && EndOf(c, b, t, i).Some? && EndOf(c, b, t, i).value < e.now
    ensures LookedAfter(c, b, events + [e], t, i)
  {
    assert (events + [e])[|events|] == e;
  }

  lemma NoneEarlyStep(c: Config, b: Start, events: seq<Event>, s: State, e: Event)
    requires OnlyResolves(s) && NoneEarly(c, b, events, s)
    ensures NoneEarly(c, b, events + [e], Apply(c, s, e)) && OnlyResolves(Apply(c, s, e))
  {
    hide Apply, Selected, OnlyResolves, LookedAfter, EndOf, Grows, ExpiredSince;
    var t := Apply(c, s, e);
    RowsGrow(c, s, e);
    LongerRows(s.rows, t.rows);
    forall i | 0 <= i < |t.rows| && t.rows[i].status == Pending ensures t.rows[i].expiresAt == EndOf(c, b, t, i) {
      PendingEnds(c, b, s, e, i);
    }
    forall i: nat | Selected(t, i) ensures i < |t.rows| && LookedAfter(c, b, events + [e], t, i) {
      NoneEarlySelected(c, b, events, s, e, i);
    }
    forall i: nat | ExpiredSince(b, t, i) ensures i < |t.rows| && LookedAfter(c, b, events + [e], t, i) {
      ExpiredEarlier(c, b, s, e, i);
      LookedStays(c, b, events, e, s, t, i);
    }
  }

  lemma StartsEarlyFree(c: Config, b: Start)
    ensures NoneEarly(c, b, [], Init(b)) && OnlyResolves(Init(b))
  {
  }

  lemma {:induction false} RunNoneEarly(c: Config, b: Start, events: seq<Event>)
    ensures NoneEarly(c, b, events, Run(c, b, events)) && OnlyResolves(Run(c, b, events))
  {
    hide NoneEarly, OnlyResolves, RunFrom;
    if events == [] {
      StartsEarlyFree(c, b);
      NoEvents(c, Init(b));
    } else {
      var before, e := events[..|events| - 1], events[|events| - 1];
      assert events == before + [e];
      RunNoneEarly(c, b, before);
      RunNext(c, Init(b), before, e);
      NoneEarlyStep(c, b, before, Run(c, b, before), e);
    }
  }

  /**
   * Over every run: a row is written "expired", and a client unblocked for it, only after the expiry task has looked at
   * a time later than the row's end, which for a new row is `blockFor` after it was made.
   */
  lemma NeverReleasedEarly(c: Config, b: Start, events: seq<Event>, i: nat)
    requires var s := Run(c, b, events);
             ExpiredSince(b, s, i) || (s.expiry.Expiring? && s.expiry.todo != [] && s.expiry.todo[0] == i)
    ensures var s := Run(c, b, events);
            && i < |s.rows|
            && var end := if i < |b.rows| then b.rows[i].expiresAt else Some(s.rows[i].created + c.blockFor);
               end.Some? && exists k | 0 <= k < |events| :: events[k].SelectExpired? && events[k].now > end.value
  {
    hide RunFrom, OnlyResolves;
    RunNoneEarly(c, b, events);
    var s := Run(c, b, events);
    assert ExpiredSince(b, s, i) || Selected(s, i);
  }
}
