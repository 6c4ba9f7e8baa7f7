/** One (rule, key) slot of the log rule engine: a bounded deque against the full event history. */
module SlidingWindow {
  import opened Wrappers
  import opened Deque

  const MAX_WINDOW_EVENTS: nat := 10_000

  datatype Hit = Hit(ts: real, raw: string)

  /** When a rule fires: `threshold` hits within `window` seconds, then silence for `cooldown` seconds. */
  datatype Policy = Policy(threshold: nat, window: nat, cooldown: nat)

  ghost predicate Ordered(h: seq<Hit>) {
    forall i, j | 0 <= i < j < |h| :: h[i].ts <= h[j].ts
  }

  /** The hits at or after `since`. */
  function Since(h: seq<Hit>, since: real): (r: seq<Hit>)
    ensures |r| <= |h|
  {
    if h == [] then []
    else
      var init := Since(h[..|h| - 1], since);
      if h[|h| - 1].ts >= since then init + [h[|h| - 1]] else init
  }

  /** The reference: how many events of the whole history lie in the window that ends with the last one. */
  ghost function ExactCount(p: Policy, h: seq<Hit>): nat
    requires h != []
  {
    |Since(h, h[|h| - 1].ts - p.window as real)|
  }

  predicate Quiet(p: Policy, last: Option<real>, now: real) {
    last.None? || now - last.value >= p.cooldown as real
  }

  /** The reference decision for the last event of a history, by a plain count over all of it. */
  ghost predicate Fires(p: Policy, h: seq<Hit>)
    decreases |h|, 0
  {
    h != [] && ExactCount(p, h) >= p.threshold && Quiet(p, LastFire(p, h[..|h| - 1]), h[|h| - 1].ts)
  }

  ghost function LastFire(p: Policy, h: seq<Hit>): Option<real>
    decreases |h|, 1
  {
    if h == [] then None
    else if Fires(p, h) then Some(h[|h| - 1].ts)
    else LastFire(p, h[..|h| - 1])
  }

  /* ---- the deque ---- */

  /** `hits.popleft()` while the oldest hit is before the window. */
  method PopExpired(hits: seq<Hit>, since: real) returns (r: seq<Hit>)
    requires Ordered(hits)
    ensures r == Since(hits, since)
  {
    r := hits;
    while r != [] && r[0].ts < since
      invariant Ordered(r)
      invariant Since(r, since) == Since(hits, since)
      decreases |r|
    {
      SinceTail(r, since);
      r := r[1..];
    }
    SinceAll(r, since);
  }

  lemma {:induction false} SinceAll(h: seq<Hit>, since: real)
    requires Ordered(h)
    requires h != [] ==> h[0].ts >= since
    ensures Since(h, since) == h
  {
    if h != [] {
      SinceAll(h[..|h| - 1], since);
      assert h[..|h| - 1] + [h[|h| - 1]] == h;
    }
  }

  lemma {:induction false} SinceTail(h: seq<Hit>, since: real)
    requires h != []
    ensures Since(h, since) == (if h[0].ts >= since then [h[0]] else []) + Since(h[1..], since)
  {
    var n := |h| - 1;
    if n > 0 {
      SinceTail(h[..n], since);
      assert h[..n][1..] == h[1..][..n - 1];
    } else {
      assert Since(h[..0], since) == [];
    }
  }

  lemma {:induction false} SinceNone(h: seq<Hit>, since: real)
    requires forall i | 0 <= i < |h| :: h[i].ts < since
    ensures Since(h, since) == []
  {
    if h != [] {
      SinceNone(h[..|h| - 1], since);
    }
  }

  /** Narrowing a window twice is narrowing it to the later bound. */
  lemma {:induction false} SinceSince(h: seq<Hit>, s0: real, s1: real)
    requires s0 <= s1
    ensures Since(Since(h, s0), s1) == Since(h, s1)
  {
    if h != [] {
      var n := |h| - 1;
      SinceSince(h[..n], s0, s1);
      if h[n].ts >= s0 {
        assert Since(h, s0)[..|Since(h, s0)| - 1] == Since(h[..n], s0);
      }
    }
  }

  lemma {:induction false} SinceOrdered(h: seq<Hit>, since: real)
    requires Ordered(h)
    ensures Ordered(Since(h, since))
    ensures forall i | 0 <= i < |Since(h, since)| ::
              since <= Since(h, since)[i].ts && (h != [] ==> Since(h, since)[i].ts <= h[|h| - 1].ts)
  {
    if h != [] {
      SinceOrdered(h[..|h| - 1], since);
    }
  }

  /** In time order, bounding first and then expiring is the same as expiring first and then bounding. */
  lemma {:induction false} SinceOfNewest(h: seq<Hit>, cap: nat, since: real)
    requires Ordered(h)
    ensures Since(Newest(h, cap), since) == Newest(Since(h, since), cap)
  {
    hide Since, Newest;
    if |h| <= cap {
      ShortIsNewest(h, cap);
      ShortIsNewest(Since(h, since), cap);
    } else if h[0].ts >= since {
      NewestOrdered(h, cap);
      SinceAll(h, since);
      SinceAll(Newest(h, cap), since);
    } else {
      NewestOfTail(h, cap);
      SinceTail(h, since);
      SinceOfNewest(h[1..], cap, since);
      assert [] + Since(h[1..], since) == Since(h[1..], since);
    }
  }

  lemma ShortIsNewest(h: seq<Hit>, cap: nat)
    requires |h| <= cap
    ensures Newest(h, cap) == h
  {
  }

  lemma NewestOfTail(h: seq<Hit>, cap: nat)
    requires |h| > cap
    ensures Newest(h, cap) == Newest(h[1..], cap)
  {
  }

  lemma NewestOrdered(h: seq<Hit>, cap: nat)
    requires Ordered(h)
    ensures Ordered(Newest(h, cap))
    ensures Newest(h, cap) != [] ==> h[0].ts <= Newest(h, cap)[0].ts
  {
  }

  /** In time order, the hits since some moment are the newest ones. */
  lemma {:induction false} SinceIsNewest(h: seq<Hit>, since: real)
    requires Ordered(h)
    ensures Since(h, since) == Newest(h, |Since(h, since)|)
  {
    hide Newest;
    if h == [] {
    } else if h[|h| - 1].ts >= since {
      var init, last := h[..|h| - 1], h[|h| - 1];
      SinceIsNewest(init, since);
      NewestAppend(init, last, |Since(init, since)|);
      assert h == init + [last];
    } else {
      SinceNone(h, since);
    }
  }

  lemma NewestAppend(h: seq<Hit>, hit: Hit, n: nat)
    requires n <= |h|
    ensures Newest(h + [hit], n + 1) == Newest(h, n) + [hit]
  {
  }

  /* ---- a slot of the engine against its history ---- */

  /** Whatever the engine forgot of a slot, its deque holds the newest events of the history, and its alert is of it. */
  ghost predicate Kept(h: seq<Hit>, hits: Option<seq<Hit>>, last: Option<real>, clock: real) {
    && Ordered(h) && (h != [] ==> h[|h| - 1].ts <= clock)
    && |Stored(hits)| <= MAX_WINDOW_EVENTS && Stored(hits) == Newest(h, |Stored(hits)|)
    && (hits.Some? ==> hits.value != [])
    && (last.Some? ==> h != [] && last.value <= h[|h| - 1].ts)
  }

  /** The cooldown memory is right, or neither it nor the right one silences anything any more. */
  ghost predicate LastAgrees(p: Policy, h: seq<Hit>, last: Option<real>, clock: real) {
    last == LastFire(p, h) || (Quiet(p, last, clock) && Quiet(p, LastFire(p, h), clock))
  }

  /** What the engine stores for a slot is, as far as it can matter from `clock` on, what the history says. */
  ghost predicate SlotAgrees(p: Policy, h: seq<Hit>, hits: Option<seq<Hit>>, last: Option<real>, clock: real) {
    var since := clock - p.window as real;
    Since(Stored(hits), since) == Newest(Since(h, since), MAX_WINDOW_EVENTS) && LastAgrees(p, h, last, clock)
  }

  /** The history has events in the window, or an alert that still silences the slot. */
  ghost predicate Matters(p: Policy, h: seq<Hit>, clock: real) {
    Since(h, clock - p.window as real) != [] || !Quiet(p, LastFire(p, h), clock)
  }

  function Stored(hits: Option<seq<Hit>>): seq<Hit> {
    if hits.Some? then hits.value else []
  }

  lemma KeptLater(h: seq<Hit>, hits: Option<seq<Hit>>, last: Option<real>, clock: real, later: real)
    requires Kept(h, hits, last, clock) && clock <= later
    ensures Kept(h, hits, last, later)
  {
  }

  lemma KeptOrdered(h: seq<Hit>, hits: Option<seq<Hit>>, last: Option<real>, clock: real)
    requires Kept(h, hits, last, clock)
    ensures Ordered(Stored(hits))
  {
  }

  /**
   * The deque has forgotten nothing that is still in the window exactly when it holds as many events as the window,
   * or as many as it can.
   */
  lemma SlotAgreesIff(p: Policy, h: seq<Hit>, hits: Option<seq<Hit>>, last: Option<real>, clock: real)
    requires Kept(h, hits, last, clock)
    ensures var inWindow := |Since(h, clock - p.window as real)|;
            SlotAgrees(p, h, hits, last, clock)
            <==> |Stored(hits)| >= (if inWindow < MAX_WINDOW_EVENTS then inWindow else MAX_WINDOW_EVENTS)
                 && LastAgrees(p, h, last, clock)
  {
    hide Since, LastAgrees, Stored;
    SinceOfNewest(h, |Stored(hits)|, clock - p.window as real);
  }

  lemma SlotAgreesLater(p: Policy, h: seq<Hit>, hits: Option<seq<Hit>>, last: Option<real>, clock: real, later: real)
    requires Kept(h, hits, last, clock) && SlotAgrees(p, h, hits, last, clock) && clock <= later
    ensures SlotAgrees(p, h, hits, last, later)
  {
    hide Since, LastFire, Newest, Stored;
    var s0, s1 := clock - p.window as real, later - p.window as real;
    SinceSince(Stored(hits), s0, s1);
    SinceSince(h, s0, s1);
    SinceOrdered(h, s0);
    SinceOfNewest(Since(h, s0), MAX_WINDOW_EVENTS, s1);
  }

  /** A slot that is not tracked agrees exactly when its history does not matter. */
  lemma UntrackedAgreesIff(p: Policy, h: seq<Hit>, clock: real)
    ensures SlotAgrees(p, h, None, None, clock) <==> !Matters(p, h, clock)
  {
    hide LastFire;
  }

  lemma {:induction false} LastFireInHistory(p: Policy, h: seq<Hit>)
    requires Ordered(h)
    ensures LastFire(p, h).Some? ==> h != [] && LastFire(p, h).value <= h[|h| - 1].ts
  {
    if h != [] {
      LastFireInHistory(p, h[..|h| - 1]);
    }
  }

  /** The last event is past both the window and the cooldown. */
  ghost predicate Silent(p: Policy, h: seq<Hit>, clock: real) {
    h != [] ==> clock - h[|h| - 1].ts > p.window as real && clock - h[|h| - 1].ts >= p.cooldown as real
  }

  /** Whatever was forgotten, a slot agrees once it has been silent long enough. */
  lemma SilentAgrees(p: Policy, h: seq<Hit>, hits: Option<seq<Hit>>, last: Option<real>, clock: real)
    requires Kept(h, hits, last, clock) && Silent(p, h, clock)
    ensures SlotAgrees(p, h, hits, last, clock) && !Matters(p, h, clock)
  {
    hide LastFire;
    SinceNone(h, clock - p.window as real);
    SinceNone(Stored(hits), clock - p.window as real);
    LastFireInHistory(p, h);
  }

  /** One event, bounded and expired, on a deque that holds the newest events of its history. */
  lemma DequeKeepsNewest(h: seq<Hit>, q: seq<Hit>, hit: Hit, since: real)
    requires Ordered(h + [hit]) && |q| <= MAX_WINDOW_EVENTS && q == Newest(h, |q|) && since <= hit.ts
    ensures var d := Since(Push(q, hit, MAX_WINDOW_EVENTS), since);
            d != [] && |d| <= MAX_WINDOW_EVENTS && d == Newest(h + [hit], |d|)
  {
    hide Since, Newest, Push;
    var pushed := Push(q, hit, MAX_WINDOW_EVENTS);
    PushedIsNewest(h, |q|, hit, MAX_WINDOW_EVENTS);
    NewestOrdered(h + [hit], |pushed|);
    SinceIsNewest(pushed, since);
    NewestTwice(h + [hit], |pushed|, |Since(pushed, since)|);
    NewestEnds(h, hit, |pushed|);
    LastIsCounted(pushed, since);
  }

  lemma NewestEnds(h: seq<Hit>, hit: Hit, n: nat)
    requires n > 0
    ensures var last := Newest(h + [hit], n); last != [] && last[|last| - 1] == hit
  {
  }

  lemma LastIsCounted(h: seq<Hit>, since: real)
    requires h != [] && h[|h| - 1].ts >= since
    ensures Since(h, since) != []
  {
  }

  /** A tracked deque ends with the last event of the history. */
  lemma KeptLast(h: seq<Hit>, hits: seq<Hit>, last: Option<real>, clock: real)
    requires Kept(h, Some(hits), last, clock)
    ensures h != [] && hits != [] && hits[|hits| - 1] == h[|h| - 1]
  {
  }

  /** An expired slot matters only while its cooldown is still running, so not at all if that is within the window. */
  lemma ExpiredMatters(p: Policy, h: seq<Hit>, hits: seq<Hit>, last: Option<real>, clock: real)
    requires Kept(h, Some(hits), last, clock)
    requires hits == [] || hits[|hits| - 1].ts < clock - p.window as real
    ensures Matters(p, h, clock) <==> !Quiet(p, LastFire(p, h), clock)
    ensures p.cooldown <= p.window ==> !Matters(p, h, clock)
  {
    hide LastFire;
    KeptLast(h, hits, last, clock);
    SinceNone(h, clock - p.window as real);
    LastFireInHistory(p, h);
  }

  lemma StepKeeps(p: Policy, h: seq<Hit>, hits: Option<seq<Hit>>, last: Option<real>, hit: Hit)
    requires Kept(h, hits, last, hit.ts)
    ensures var s := SlotStep(p, SlotState(Stored(hits), last), hit).0; Kept(h + [hit], Some(s.hits), s.last, hit.ts)
  {
    hide Since, Push, Newest, Quiet;
    OrderedAppend(h, hit);
    DequeKeepsNewest(h, Stored(hits), hit, hit.ts - p.window as real);
  }

  lemma PushedIsNewest(h: seq<Hit>, n: nat, hit: Hit, cap: nat)
    requires |Newest(h, n)| == n <= cap
    ensures var pushed := Push(Newest(h, n), hit, cap); pushed == Newest(h + [hit], |pushed|)
  {
  }

  lemma NewestTwice(h: seq<Hit>, n: nat, k: nat)
    ensures Newest(Newest(h, n), k) == Newest(h, if n < k then n else k)
  {
  }

  /** An agreeing deque holds the capped window again after one event. */
  lemma ObserveDeque(p: Policy, h: seq<Hit>, hits: Option<seq<Hit>>, last: Option<real>, hit: Hit)
    requires Kept(h, hits, last, hit.ts) && SlotAgrees(p, h, hits, last, hit.ts)
    ensures Since(Push(Stored(hits), hit, MAX_WINDOW_EVENTS), hit.ts - p.window as real)
            == Newest(Since(h + [hit], hit.ts - p.window as real), MAX_WINDOW_EVENTS)
  {
    hide *;
    var q, since := Stored(hits), hit.ts - p.window as real;
    KeptOrdered(h, hits, last, hit.ts);
    KeptEnds(h, hits, last, hit.ts);
    DequeStep(h, q, hit, since) by { AgreesMeans(p, h, hits, last, hit.ts); }
  }

  lemma AgreesMeans(p: Policy, h: seq<Hit>, hits: Option<seq<Hit>>, last: Option<real>, clock: real)
    requires SlotAgrees(p, h, hits, last, clock)
    ensures Since(Stored(hits), clock - p.window as real)
         == Newest(Since(h, clock - p.window as real), MAX_WINDOW_EVENTS)
  {
  }

  lemma KeptEnds(h: seq<Hit>, hits: Option<seq<Hit>>, last: Option<real>, clock: real)
    requires Kept(h, hits, last, clock)
    ensures var q := Stored(hits); q != [] ==> q[|q| - 1].ts <= clock
  {
  }

  /** One event: if a deque holds the capped window of the history, it holds the capped window again. */
  lemma DequeStep(h: seq<Hit>, q: seq<Hit>, hit: Hit, since: real)
    requires Ordered(q) && (q != [] ==> q[|q| - 1].ts <= hit.ts) && since <= hit.ts
    requires Since(q, since) == Newest(Since(h, since), MAX_WINDOW_EVENTS)
    ensures Since(Push(q, hit, MAX_WINDOW_EVENTS), since) == Newest(Since(h + [hit], since), MAX_WINDOW_EVENTS)
  {
    hide Since, Newest, Push;
    OrderedAppend(q, hit);
    PushIsNewest(q, hit, MAX_WINDOW_EVENTS);
    SinceOfNewest(q + [hit], MAX_WINDOW_EVENTS, since);
    SinceNext(q, hit, since);
    SinceNext(h, hit, since);
    PushIsNewest(Since(q, since), hit, MAX_WINDOW_EVENTS);
    PushNewest(Since(h, since), hit, MAX_WINDOW_EVENTS);
  }

  lemma SinceNext(h: seq<Hit>, hit: Hit, since: real)
    ensures Since(h + [hit], since) == if hit.ts >= since then Since(h, since) + [hit] else Since(h, since)
  {
    assert (h + [hit])[..|h|] == h;
  }

  lemma CappedCount(p: Policy, h: seq<Hit>, hit: Hit)
    requires p.threshold <= MAX_WINDOW_EVENTS
    ensures |Newest(Since(h + [hit], hit.ts - p.window as real), MAX_WINDOW_EVENTS)| >= p.threshold
            <==> ExactCount(p, h + [hit]) >= p.threshold
  {
    hide Since;
  }

  lemma LastFireNext(p: Policy, h: seq<Hit>, hit: Hit)
    ensures Fires(p, h + [hit]) <==> ExactCount(p, h + [hit]) >= p.threshold && Quiet(p, LastFire(p, h), hit.ts)
    ensures LastFire(p, h + [hit]) == if Fires(p, h + [hit]) then Some(hit.ts) else LastFire(p, h)
  {
    assert (h + [hit])[..|h|] == h;
  }

  /** The engine's hit test and cooldown test give the reference decision, and the slot agrees again. */
  lemma ObserveAgrees(p: Policy, h: seq<Hit>, hits: Option<seq<Hit>>, last: Option<real>, hit: Hit)
    requires Kept(h, hits, last, hit.ts) && SlotAgrees(p, h, hits, last, hit.ts) && p.threshold <= MAX_WINDOW_EVENTS
    ensures var since := hit.ts - p.window as real;
            var d := Since(Push(Stored(hits), hit, MAX_WINDOW_EVENTS), since);
            var fires := |d| >= p.threshold && Quiet(p, last, hit.ts);
            && d == Newest(Since(h + [hit], since), MAX_WINDOW_EVENTS)
            && (fires <==> Fires(p, h + [hit]))
            && SlotAgrees(p, h + [hit], Some(d), if fires then Some(hit.ts) else last, hit.ts)
            && (last == LastFire(p, h) ==> (if fires then Some(hit.ts) else last) == LastFire(p, h + [hit]))
  {
    hide Since, Push, Newest, Fires, LastFire, ExactCount, Quiet, Ordered;
    var since := hit.ts - p.window as real;
    ObserveDeque(p, h, hits, last, hit);
    CappedCount(p, h, hit);
    LastFireNext(p, h, hit);
    SinceSince(Push(Stored(hits), hit, MAX_WINDOW_EVENTS), since, since);
  }

  lemma OrderedAppend(h: seq<Hit>, hit: Hit)
    requires Ordered(h) && (h != [] ==> h[|h| - 1].ts <= hit.ts)
    ensures Ordered(h + [hit])
  {
  }

  lemma NewSlotAgrees(p: Policy, clock: real)
    ensures Kept([], None, None, clock) && SlotAgrees(p, [], None, None, clock)
  {
  }

  /* ---- a slot on its own: keeping it and dropping it ---- */

  datatype SlotState = SlotState(hits: seq<Hit>, last: Option<real>)

  /** What the engine does to one slot for one event, and the count of the alert it raises, if any. */
  function SlotStep(p: Policy, s: SlotState, hit: Hit): (SlotState, Option<nat>) {
    var d := Since(Push(s.hits, hit, MAX_WINDOW_EVENTS), hit.ts - p.window as real);
    if |d| >= p.threshold && Quiet(p, s.last, hit.ts) then (SlotState(d, Some(hit.ts)), Some(|d|))
    else (SlotState(d, s.last), None)
  }

  function SlotAfter(p: Policy, s: SlotState, later: seq<Hit>): SlotState {
    if later == [] then s else SlotStep(p, SlotAfter(p, s, later[..|later| - 1]), later[|later| - 1]).0
  }

  /** The alerts of a stream of events for one slot, event by event. */
  function SlotAlerts(p: Policy, s: SlotState, later: seq<Hit>): (r: seq<Option<nat>>)
    ensures |r| == |later|
  {
    if later == [] then []
    else
      var init := later[..|later| - 1];
      SlotAlerts(p, s, init) + [SlotStep(p, SlotAfter(p, s, init), later[|later| - 1]).1]
  }

  const EMPTY_SLOT := SlotState([], None)

  /** At time `now` a slot with history `h` has expired: its newest event is before the window. */
  ghost predicate Expired(p: Policy, h: seq<Hit>, now: real) {
    h != [] && Ordered(h) && h[|h| - 1].ts < now - p.window as real
  }

  ghost predicate Follows(later: seq<Hit>, now: real) {
    Ordered(later) && forall i | 0 <= i < |later| :: later[i].ts >= now
  }

  /** Dropping an expired slot changes no alert of any later stream. */
  ghost predicate DropInvisible(p: Policy) {
    forall h, now, later | Expired(p, h, now) && Follows(later, now) ::
      SlotAlerts(p, SlotAfter(p, EMPTY_SLOT, h), later) == SlotAlerts(p, EMPTY_SLOT, later)
  }

  /** The reported count and the decision of the slot follow the plain count over the whole history. */
  ghost predicate MatchesPlainCount(p: Policy) {
    forall h | Ordered(h) && h != [] :: SlotAlerts(p, EMPTY_SLOT, h)[|h| - 1] == PlainAlert(p, h)
  }

  ghost function PlainAlert(p: Policy, h: seq<Hit>): Option<nat>
    requires h != []
  {
    if !Fires(p, h) then None
    else Some(if ExactCount(p, h) < MAX_WINDOW_EVENTS then ExactCount(p, h) else MAX_WINDOW_EVENTS)
  }

  lemma SlotNext(p: Policy, s: SlotState, later: seq<Hit>, hit: Hit)
    ensures SlotAfter(p, s, later + [hit]) == SlotStep(p, SlotAfter(p, s, later), hit).0
    ensures SlotAlerts(p, s, later + [hit])
            == SlotAlerts(p, s, later) + [SlotStep(p, SlotAfter(p, s, later), hit).1]
  {
    assert (later + [hit])[..|later|] == later;
  }

  /** One engine step keeps the agreement and reports what the plain count says. */
  lemma SlotStepAgrees(p: Policy, h: seq<Hit>, hits: Option<seq<Hit>>, last: Option<real>, hit: Hit)
    requires Kept(h, hits, last, hit.ts) && SlotAgrees(p, h, hits, last, hit.ts) && p.threshold <= MAX_WINDOW_EVENTS
    ensures var (s, alert) := SlotStep(p, SlotState(Stored(hits), last), hit);
            && s.hits == Newest(Since(h + [hit], hit.ts - p.window as real), MAX_WINDOW_EVENTS)
            && s.hits != []
            && SlotAgrees(p, h + [hit], Some(s.hits), s.last, hit.ts) && alert == PlainAlert(p, h + [hit])
            && (last == LastFire(p, h) ==> s.last == LastFire(p, h + [hit]))
  {
    hide Since, Push, Fires, Quiet, Stored, SlotAgrees, Kept, LastFire;
    ObserveAgrees(p, h, hits, last, hit);
    LastIsCounted(h + [hit], hit.ts - p.window as real);
  }

  /** A slot that is never dropped holds the capped window of its history and its last alert. */
  lemma {:induction false} SlotAgreesWithHistory(p: Policy, h: seq<Hit>)
    requires Ordered(h) && h != [] && p.threshold <= MAX_WINDOW_EVENTS
    ensures SlotAfter(p, EMPTY_SLOT, h) ==
            SlotState(Newest(Since(h, h[|h| - 1].ts - p.window as real), MAX_WINDOW_EVENTS), LastFire(p, h))
    ensures SlotAlerts(p, EMPTY_SLOT, h)[|h| - 1] == PlainAlert(p, h)
  {
    hide *;
    var n := |h| - 1;
    var init, hit := h[..n], h[n];
    assert h == init + [hit];
    OrderedCut(h, n);
    SlotNext(p, EMPTY_SLOT, init, hit);
    if n == 0 {
      NewSlotAgrees(p, hit.ts);
      FreshSlot(p);
      SlotStepAgrees(p, [], None, None, hit);
    } else {
      SlotAgreesWithHistory(p, init);
      var s, clock := SlotAfter(p, EMPTY_SLOT, init), init[n - 1].ts;
      StoredIs(s);
      ExactSlot(p, init);
      KeptLater(init, Some(s.hits), s.last, clock, hit.ts);
      SlotAgreesLater(p, init, Some(s.hits), s.last, clock, hit.ts);
      SlotStepAgrees(p, init, Some(s.hits), s.last, hit);
    }
  }

  lemma ExactSlot(p: Policy, h: seq<Hit>)
    requires Ordered(h) && h != []
    ensures var clock := h[|h| - 1].ts;
            var d := Newest(Since(h, clock - p.window as real), MAX_WINDOW_EVENTS);
            Kept(h, Some(d), LastFire(p, h), clock) && SlotAgrees(p, h, Some(d), LastFire(p, h), clock)
  {
    hide Since, LastFire, Quiet, Newest;
    var clock := h[|h| - 1].ts;
    var since := clock - p.window as real;
    LastFireInHistory(p, h);
    CappedWindow(h, since);
  }

  lemma CappedWindow(h: seq<Hit>, since: real)
    requires Ordered(h)
    ensures var d := Newest(Since(h, since), MAX_WINDOW_EVENTS);
            && d == Newest(h, |d|) && Since(d, since) == d
            && (h != [] && h[|h| - 1].ts >= since ==> d != [])
  {
    hide Since, Newest;
    SinceIsNewest(h, since);
    NewestTwice(h, |Since(h, since)|, MAX_WINDOW_EVENTS);
    SinceOrdered(h, since);
    SinceOfNewest(Since(h, since), MAX_WINDOW_EVENTS, since);
    SinceSince(h, since, since);
    if h != [] && h[|h| - 1].ts >= since {
      LastIsCounted(h, since);
    }
  }

  lemma FreshSlot(p: Policy)
    ensures SlotAfter(p, EMPTY_SLOT, []) == SlotState(Stored(None), None) && LastFire(p, []) == None
  {
  }

  lemma StoredIs(s: SlotState)
    ensures SlotState(Stored(Some(s.hits)), s.last) == s
  {
  }

  lemma OrderedCut(h: seq<Hit>, n: nat)
    requires Ordered(h) && n < |h|
    ensures Ordered(h[..n])
    ensures n > 0 ==> h[..n][n - 1].ts <= h[n].ts
  {
  }

  /** `k` events at the same instant. */
  function Burst(t: real, k: nat): (h: seq<Hit>)
    ensures |h| == k && forall i | 0 <= i < k :: h[i] == Hit(t, "")
  {
    seq(k, _ => Hit(t, ""))
  }

  lemma BurstNext(t: real, k: nat)
    ensures Burst(t, k + 1) == Burst(t, k) + [Hit(t, "")]
  {
  }

  /** With a threshold above the cap the deque never grows long enough, whatever happens. */
  lemma {:induction false} SilentAboveCap(p: Policy, s: SlotState, later: seq<Hit>)
    requires p.threshold > MAX_WINDOW_EVENTS && |s.hits| <= MAX_WINDOW_EVENTS
    ensures |SlotAfter(p, s, later).hits| <= MAX_WINDOW_EVENTS
    ensures forall i | 0 <= i < |later| :: SlotAlerts(p, s, later)[i].None?
  {
    if later != [] {
      SilentAboveCap(p, s, later[..|later| - 1]);
    }
  }

  /** The plain count of a burst is its size, so the reference fires on its `threshold`-th event. */
  lemma {:induction false} BurstCount(p: Policy, t: real, k: nat)
    requires 0 < k <= p.threshold
    ensures ExactCount(p, Burst(t, k)) == k
    ensures Fires(p, Burst(t, k)) <==> k == p.threshold
    ensures LastFire(p, Burst(t, k)) == if k == p.threshold then Some(t) else None
  {
    hide Since, Quiet, Fires, LastFire, ExactCount;
    var h := Burst(t, k);
    AllCounted(p, h);
    assert h[..k - 1] == Burst(t, k - 1);
    if k > 1 {
      BurstCount(p, t, k - 1);
    } else {
      NothingFired(p, Burst(t, 0));
    }
    FiresByCount(p, h);
  }

  lemma AllCounted(p: Policy, h: seq<Hit>)
    requires h != [] && forall i | 0 <= i < |h| :: h[i].ts == h[|h| - 1].ts
    ensures ExactCount(p, h) == |h|
  {
    hide Since;
    SinceAll(h, h[|h| - 1].ts - p.window as real);
  }

  lemma NothingFired(p: Policy, h: seq<Hit>)
    requires h == []
    ensures LastFire(p, h) == None
  {
  }

  /** After a silent past the count alone decides. */
  lemma FiresByCount(p: Policy, h: seq<Hit>)
    requires h != [] && LastFire(p, h[..|h| - 1]) == None
    ensures Fires(p, h) <==> ExactCount(p, h) >= p.threshold
    ensures LastFire(p, h) == if Fires(p, h) then Some(h[|h| - 1].ts) else None
  {
    hide ExactCount;
  }

  /** The engine reports what the plain count says exactly when the threshold fits into the deque. */
  lemma PlainCountIffThresholdFits(p: Policy)
    requires p.threshold > 0
    ensures MatchesPlainCount(p) <==> p.threshold <= MAX_WINDOW_EVENTS
  {
    if p.threshold <= MAX_WINDOW_EVENTS {
      forall h | Ordered(h) && h != [] ensures SlotAlerts(p, EMPTY_SLOT, h)[|h| - 1] == PlainAlert(p, h) {
        SlotAgreesWithHistory(p, h);
      }
    } else {
      var h := Burst(0.0, p.threshold);
      BurstCount(p, 0.0, p.threshold);
      SilentAboveCap(p, EMPTY_SLOT, h);
      assert PlainAlert(p, h).Some?;
    }
  }

  /* ---- dropping an expired slot ---- */

  /** Equal deques, and a cooldown memory that differs only where it can no longer matter. */
  ghost predicate SameFuture(p: Policy, kept: SlotState, dropped: SlotState, now: real) {
    && kept.hits == dropped.hits
    && (kept.last == dropped.last
        || (dropped.last.None? && kept.last.Some? && kept.last.value < now - p.window as real))
  }

  ghost predicate AllBefore(s: SlotState, bound: real) {
    && (forall i | 0 <= i < |s.hits| :: s.hits[i].ts < bound)
    && (s.last.Some? ==> s.last.value < bound)
  }

  /** The first event after the window of all stored ones leaves just itself. */
  lemma StepFromOld(p: Policy, s: SlotState, hit: Hit)
    requires forall i | 0 <= i < |s.hits| :: s.hits[i].ts < hit.ts - p.window as real
    ensures SlotStep(p, s, hit).0.hits == [hit]
  {
    var since := hit.ts - p.window as real;
    var d := Push(s.hits, hit, MAX_WINDOW_EVENTS);
    var n := |d| - 1;
    assert d[n] == hit;
    forall i | 0 <= i < n ensures d[i].ts < since {
      assert d[i] in s.hits;
    }
    SinceNone(d[..n], since);
  }

  lemma {:induction false} StoredIsFromHistory(p: Policy, h: seq<Hit>, bound: real)
    requires forall i | 0 <= i < |h| :: h[i].ts < bound
    ensures AllBefore(SlotAfter(p, EMPTY_SLOT, h), bound)
  {
    hide Since, Push, SlotStep, AllBefore;
    if h == [] {
      NothingStored(bound);
    } else {
      var init := h[..|h| - 1];
      StoredIsFromHistory(p, init, bound);
      StepKeepsBound(p, SlotAfter(p, EMPTY_SLOT, init), h[|h| - 1], bound);
    }
  }

  lemma NothingStored(bound: real)
    ensures AllBefore(EMPTY_SLOT, bound)
  {
  }

  lemma StepKeepsBound(p: Policy, s: SlotState, hit: Hit, bound: real)
    requires AllBefore(s, bound) && hit.ts < bound
    ensures AllBefore(SlotStep(p, s, hit).0, bound)
  {
    hide Since;
    SinceKeepsBound(Push(s.hits, hit, MAX_WINDOW_EVENTS), hit.ts - p.window as real, bound);
  }

  lemma {:induction false} SinceKeepsBound(h: seq<Hit>, since: real, bound: real)
    requires forall i | 0 <= i < |h| :: h[i].ts < bound
    ensures forall i | 0 <= i < |Since(h, since)| :: Since(h, since)[i].ts < bound
  {
    if h != [] {
      SinceKeepsBound(h[..|h| - 1], since, bound);
    }
  }

  lemma SameFutureStep(p: Policy, kept: SlotState, dropped: SlotState, now: real, hit: Hit)
    requires p.cooldown <= p.window && hit.ts >= now && SameFuture(p, kept, dropped, now)
    ensures SlotStep(p, kept, hit).1 == SlotStep(p, dropped, hit).1
    ensures SameFuture(p, SlotStep(p, kept, hit).0, SlotStep(p, dropped, hit).0, now)
  {
    hide Since, Push;
  }

  lemma FirstStepAfterDrop(p: Policy, kept: SlotState, now: real, hit: Hit)
    requires p.cooldown <= p.window && hit.ts >= now && AllBefore(kept, now - p.window as real)
    ensures SlotStep(p, kept, hit).1 == SlotStep(p, EMPTY_SLOT, hit).1
    ensures SameFuture(p, SlotStep(p, kept, hit).0, SlotStep(p, EMPTY_SLOT, hit).0, now)
  {
    hide Since, Push;
    StepFromOld(p, kept, hit);
    StepFromOld(p, EMPTY_SLOT, hit);
  }

  lemma {:induction false} DropKeepsFuture(p: Policy, kept: SlotState, now: real, later: seq<Hit>)
    requires p.cooldown <= p.window && AllBefore(kept, now - p.window as real) && Follows(later, now)
    ensures SlotAlerts(p, kept, later) == SlotAlerts(p, EMPTY_SLOT, later)
    ensures later != [] ==> SameFuture(p, SlotAfter(p, kept, later), SlotAfter(p, EMPTY_SLOT, later), now)
  {
    hide SlotStep, SameFuture, AllBefore;
    if later != [] {
      var n := |later| - 1;
      var init, hit := later[..n], later[n];
      assert later == init + [hit];
      DropKeepsFuture(p, kept, now, init);
      if init == [] {
        FirstStepAfterDrop(p, kept, now, hit);
      } else {
        SameFutureStep(p, SlotAfter(p, kept, init), SlotAfter(p, EMPTY_SLOT, init), now, hit);
      }
    }
  }

  /** A burst from nothing fires on its `threshold`-th event. */
  lemma {:induction false} BurstFires(p: Policy, t: real, k: nat)
    requires 0 < k <= p.threshold <= MAX_WINDOW_EVENTS
    ensures SlotAlerts(p, EMPTY_SLOT, Burst(t, k))[k - 1].Some? <==> k == p.threshold
  {
    SlotAgreesWithHistory(p, Burst(t, k));
    BurstCount(p, t, k);
  }

  /** The same burst is silenced by a cooldown that is still running. */
  lemma {:induction false} BurstSilenced(p: Policy, s: SlotState, t: real, k: nat)
    requires s.last.Some? && t - s.last.value < p.cooldown as real
    ensures SlotAfter(p, s, Burst(t, k)).last == s.last
    ensures forall i | 0 <= i < k :: SlotAlerts(p, s, Burst(t, k))[i].None?
  {
    if k > 0 {
      hide *;
      BurstSilenced(p, s, t, k - 1);
      BurstNext(t, k - 1);
      SlotNext(p, s, Burst(t, k - 1), Hit(t, ""));
      SilencedStep(p, SlotAfter(p, s, Burst(t, k - 1)), Hit(t, ""));
    }
  }

  lemma SilencedStep(p: Policy, s: SlotState, hit: Hit)
    requires s.last.Some? && hit.ts - s.last.value < p.cooldown as real
    ensures SlotStep(p, s, hit).1.None? && SlotStep(p, s, hit).0.last == s.last
  {
    hide Since, Push;
  }

  /**
   * Forgetting expired slots is unobservable on every later stream exactly when the cooldown is no longer
   * than the window (or the rule can never fire at all).
   */
  lemma DropInvisibleIffCooldownFits(p: Policy)
    requires p.threshold > 0
    ensures DropInvisible(p) <==> p.cooldown <= p.window || p.threshold > MAX_WINDOW_EVENTS
  {
    hide Since;
    if p.threshold > MAX_WINDOW_EVENTS {
      forall h, now, later | Expired(p, h, now) && Follows(later, now)
        ensures SlotAlerts(p, SlotAfter(p, EMPTY_SLOT, h), later) == SlotAlerts(p, EMPTY_SLOT, later)
      {
        SilentAboveCap(p, EMPTY_SLOT, h);
        SilentAboveCap(p, SlotAfter(p, EMPTY_SLOT, h), later);
        SilentAboveCap(p, EMPTY_SLOT, later);
      }
    } else if p.cooldown <= p.window {
      forall h, now, later | Expired(p, h, now) && Follows(later, now)
        ensures SlotAlerts(p, SlotAfter(p, EMPTY_SLOT, h), later) == SlotAlerts(p, EMPTY_SLOT, later)
      {
        StoredIsFromHistory(p, h, now - p.window as real);
        DropKeepsFuture(p, SlotAfter(p, EMPTY_SLOT, h), now, later);
      }
    } else {
      DropVisible(p);
    }
  }

  lemma DropVisible(p: Policy)
    requires 0 < p.threshold <= MAX_WINDOW_EVENTS && p.cooldown > p.window
    ensures !DropInvisible(p)
  {
    hide Since, SlotAlerts, SlotAfter;
    var n := p.threshold;
    var h := Burst(0.0, n);
    var t := (p.window + p.cooldown) as real / 2.0;
    var later := Burst(t, n);
    SlotAgreesWithHistory(p, h);
    BurstCount(p, 0.0, n);
    var kept := SlotAfter(p, EMPTY_SLOT, h);
    assert kept.last == Some(0.0);
    BurstSilenced(p, kept, t, n);
    BurstFires(p, t, n);
    assert Expired(p, h, t) && Follows(later, t);
    assert SlotAlerts(p, kept, later)[n - 1] != SlotAlerts(p, EMPTY_SLOT, later)[n - 1];
  }
}
