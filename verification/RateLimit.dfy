/** The sliding-window rate limiter and the clean-up task that prunes its table, specified by the accepted requests. */
module RateLimit {

  datatype Event = Request(client: string, now: real) | Prune(now: real)

  datatype Config = Config(requests: int, window: real)

  /** `[t for t in ts if t > cutoff]` */
  function After(ts: seq<real>, cutoff: real): seq<real> {
    if ts == [] then []
    else
      var t := ts[|ts| - 1];
      After(ts[..|ts| - 1], cutoff) + if t > cutoff then [t] else []
  }

  /** Times of the client's accepted requests, by the rule: fewer than `requests` of them within the last window. */
  function Accepted(c: Config, trace: seq<Event>, client: string): seq<real>
    decreases |trace|, 0
  {
    if trace == [] then []
    else
      var before, e := trace[..|trace| - 1], trace[|trace| - 1];
      Accepted(c, before, client)
      + if e.Request? && e.client == client && Accepts(c, before, client, e.now) then [e.now] else []
  }

  /** No mention of any clean-up: pruning must not matter. */
  predicate Accepts(c: Config, trace: seq<Event>, client: string, now: real)
    decreases |trace|, 1
  {
    |After(Accepted(c, trace, client), now - c.window)| < c.requests
  }

  ghost predicate Nondecreasing(ts: seq<real>) {
    forall i, j | 0 <= i < j < |ts| :: ts[i] <= ts[j]
  }

  lemma AfterNext(ts: seq<real>, t: real, cutoff: real)
    ensures After(ts + [t], cutoff) == After(ts, cutoff) + if t > cutoff then [t] else []
  {
    assert (ts + [t])[..|ts|] == ts;
  }

  lemma {:induction false} AfterTwice(ts: seq<real>, x: real, y: real)
    requires x <= y
    ensures After(After(ts, x), y) == After(ts, y)
  {
    if ts != [] {
      var front, t := ts[..|ts| - 1], ts[|ts| - 1];
      AfterTwice(front, x, y);
      assert After(ts, x) == if t > x then After(front, x) + [t] else After(front, x);
      AfterNext(After(front, x), t, y);
    }
  }

  lemma {:induction false} AfterNone(ts: seq<real>, cutoff: real)
    requires forall i | 0 <= i < |ts| :: ts[i] <= cutoff
    ensures After(ts, cutoff) == []
  {
    if ts != [] {
      AfterNone(ts[..|ts| - 1], cutoff);
    }
  }

  lemma {:induction false} AfterMembers(ts: seq<real>, cutoff: real)
    requires Nondecreasing(ts)
    ensures Nondecreasing(After(ts, cutoff))
    ensures forall t | t in After(ts, cutoff) :: t in ts
  {
    if ts != [] {
      var front, t := ts[..|ts| - 1], ts[|ts| - 1];
      AfterMembers(front, cutoff);
      assert ts == front + [t];
      var a := After(front, cutoff);
      assert forall i | 0 <= i < |a| :: a[i] in a;
      assert forall u | u in front :: u <= t;
    }
  }

  /* ---- the bound ---- */

  /** How many of the times lie in (lo, hi]. */
  function CountIn(ts: seq<real>, lo: real, hi: real): nat {
    if ts == [] then 0
    else CountIn(ts[..|ts| - 1], lo, hi) + if lo < ts[|ts| - 1] <= hi then 1 else 0
  }

  lemma {:induction false} CountIsAfter(ts: seq<real>, lo: real, hi: real, cutoff: real)
    requires cutoff <= lo
    ensures CountIn(ts, lo, hi) <= |After(ts, cutoff)|
  {
    if ts != [] {
      CountIsAfter(ts[..|ts| - 1], lo, hi, cutoff);
    }
  }

  /** In any half-open interval as long as the window, at most `requests` of a client's requests are accepted. */
  lemma {:induction false} AtMostRequestsPerWindow(c: Config, trace: seq<Event>, client: string, lo: real)
    ensures CountIn(Accepted(c, trace, client), lo, lo + c.window) <= if c.requests > 0 then c.requests else 0
  {
    if trace != [] {
      hide After;
      var before, e := trace[..|trace| - 1], trace[|trace| - 1];
      var ts := Accepted(c, before, client);
      AtMostRequestsPerWindow(c, before, client, lo);
      if Accepted(c, trace, client) != ts {
        CountNext(ts, e.now, lo, lo + c.window);
        if lo < e.now <= lo + c.window {
          CountIsAfter(ts, lo, lo + c.window, e.now - c.window);
        }
      }
    }
  }

  lemma CountNext(ts: seq<real>, t: real, lo: real, hi: real)
    ensures CountIn(ts + [t], lo, hi) == CountIn(ts, lo, hi) + if lo < t <= hi then 1 else 0
  {
    assert (ts + [t])[..|ts|] == ts;
  }

  /* ---- the table of the middleware ---- */

  function Row(hits: map<string, seq<real>>, client: string): seq<real> {
    if client in hits then hits[client] else []
  }

  /** What a row may have forgotten is older than any window still to come. */
  ghost predicate RowAgrees(row: seq<real>, accepted: seq<real>, clock: real, window: real) {
    && Nondecreasing(row)
    && (forall i | 0 <= i < |row| :: row[i] <= clock)
    && forall cutoff | cutoff >= clock - window :: After(row, cutoff) == After(accepted, cutoff)
  }

  lemma RequestAgrees(row: seq<real>, accepted: seq<real>, clock: real, window: real, now: real)
    requires RowAgrees(row, accepted, clock, window) && now >= clock
    ensures After(row, now - window) == After(accepted, now - window)
    ensures RowAgrees(After(row, now - window), accepted, now, window)
    ensures RowAgrees(After(row, now - window) + [now], accepted + [now], now, window)
  {
    hide After;
    var kept := After(row, now - window);
    AfterMembers(row, now - window);
    assert forall i | 0 <= i < |kept| :: kept[i] in kept;
    forall cutoff | cutoff >= now - window
      ensures After(kept, cutoff) == After(accepted, cutoff)
      ensures After(kept + [now], cutoff) == After(accepted + [now], cutoff)
    {
      AfterTwice(row, now - window, cutoff);
      AfterNext(kept, now, cutoff);
      AfterNext(accepted, now, cutoff);
    }
  }

  lemma TimePasses(row: seq<real>, accepted: seq<real>, clock: real, window: real, now: real)
    requires RowAgrees(row, accepted, clock, window) && now >= clock
    ensures RowAgrees(row, accepted, now, window)
  {
    hide After;
  }

  /** `not ts or ts[-1] < cutoff` */
  predicate Stale(row: seq<real>, cutoff: real) {
    row == [] || row[|row| - 1] < cutoff
  }

  /** A row that is stale for a prune window no shorter than the limiter's is worth as much as none. */
  lemma PrunedAgrees(row: seq<real>, accepted: seq<real>, clock: real, c: Config, pruneWindow: real, now: real)
    requires RowAgrees(row, accepted, clock, c.window) && now >= clock
    requires Stale(row, now - pruneWindow) && pruneWindow >= c.window
    ensures RowAgrees([], accepted, now, c.window)
  {
    hide After;
    forall cutoff | cutoff >= now - c.window
      ensures After([], cutoff) == After(accepted, cutoff)
    {
      AfterNone(row, cutoff);
      AfterNone([], cutoff);
    }
  }

  ghost predicate Agrees(c: Config, trace: seq<Event>, clock: real, hits: map<string, seq<real>>) {
    forall client: string :: RowAgrees(Row(hits, client), Accepted(c, trace, client), clock, c.window)
  }

  lemma AcceptedNext(c: Config, trace: seq<Event>, e: Event, client: string)
    ensures Accepted(c, trace + [e], client)
         == Accepted(c, trace, client)
            + if e.Request? && e.client == client && Accepts(c, trace, client, e.now) then [e.now] else []
  {
    assert (trace + [e])[..|trace|] == trace;
  }

  lemma AgreesAfterRequest(c: Config, trace: seq<Event>, clock: real, was: map<string, seq<real>>, client: string,
                           now: real, later: map<string, seq<real>>)
    requires Agrees(c, trace, clock, was) && now >= clock
    requires var row := After(Row(was, client), now - c.window);
             later == was[client := if |row| < c.requests then row + [now] else row]
    ensures |After(Row(was, client), now - c.window)| < c.requests <==> Accepts(c, trace, client, now)
    ensures Agrees(c, trace + [Request(client, now)], now, later)
  {
    hide After, RowAgrees, Accepted, Accepts;
    SameRule(c, trace, client, now);
    RequestAgrees(Row(was, client), Accepted(c, trace, client), clock, c.window, now);
    forall other: string
      ensures RowAgrees(Row(later, other), Accepted(c, trace + [Request(client, now)], other), now, c.window)
    {
      AcceptedNext(c, trace, Request(client, now), other);
      if other != client {
        TimePasses(Row(was, other), Accepted(c, trace, other), clock, c.window, now);
        assert Accepted(c, trace, other) + [] == Accepted(c, trace, other);
      } else if !Accepts(c, trace, client, now) {
        assert Accepted(c, trace, other) + [] == Accepted(c, trace, other);
      }
    }
  }

  lemma SameRule(c: Config, trace: seq<Event>, client: string, now: real)
    ensures Accepts(c, trace, client, now) <==> |After(Accepted(c, trace, client), now - c.window)| < c.requests
  {
  }

  lemma AgreesAfterPrune(c: Config, trace: seq<Event>, clock: real, was: map<string, seq<real>>, pruneWindow: real,
                         now: real, later: map<string, seq<real>>)
    requires Agrees(c, trace, clock, was) && now >= clock && pruneWindow >= c.window
    requires forall client: string :: client in later <==> client in was && !Stale(was[client], now - pruneWindow)
    requires forall client: string | client in later :: later[client] == was[client]
    ensures Agrees(c, trace + [Prune(now)], now, later)
  {
    hide After, RowAgrees, Accepted;
    forall client: string
      ensures RowAgrees(Row(later, client), Accepted(c, trace + [Prune(now)], client), now, c.window)
    {
      AcceptedNext(c, trace, Prune(now), client);
      assert Accepted(c, trace, client) + [] == Accepted(c, trace, client);
      if client in later {
        TimePasses(Row(was, client), Accepted(c, trace, client), clock, c.window, now);
      } else {
        PrunedAgrees(Row(was, client), Accepted(c, trace, client), clock, c, pruneWindow, now);
      }
    }
  }

  /* ---- runs of the table, clean-ups included ---- */

  predicate TableAccepts(c: Config, hits: map<string, seq<real>>, client: string, now: real) {
    |After(Row(hits, client), now - c.window)| < c.requests
  }

  function TableStep(c: Config, pruneWindow: real, hits: map<string, seq<real>>, e: Event): map<string, seq<real>> {
    match e
    case Request(client, now) =>
      var row := After(Row(hits, client), now - c.window);
      hits[client := if |row| < c.requests then row + [now] else row]
    case Prune(now) => hits - StaleClients(hits, now - pruneWindow)
  }

  function StaleClients(hits: map<string, seq<real>>, cutoff: real): set<string> {
    set client | client in hits && Stale(hits[client], cutoff)
  }

  /** Exactly the clients whose row is not stale are left, with their rows. */
  ghost predicate OnlyStaleGone(was: map<string, seq<real>>, later: map<string, seq<real>>, cutoff: real) {
    && (forall client: string ::
         client in later <==> client in was && was[client] != [] && was[client][|was[client]| - 1] >= cutoff)
    && forall client: string | client in later :: later[client] == was[client]
  }

  lemma WithoutStale(hits: map<string, seq<real>>, cutoff: real)
    ensures OnlyStaleGone(hits, hits - StaleClients(hits, cutoff), cutoff)
    ensures |hits - StaleClients(hits, cutoff)| == |hits| - |StaleClients(hits, cutoff)|
  {
    var kept := hits - StaleClients(hits, cutoff);
    assert hits.Keys == kept.Keys + StaleClients(hits, cutoff);
  }

  function Table(c: Config, pruneWindow: real, trace: seq<Event>): map<string, seq<real>> {
    if trace == [] then map[]
    else TableStep(c, pruneWindow, Table(c, pruneWindow, trace[..|trace| - 1]), trace[|trace| - 1])
  }

  /** What the middleware answers to each request of a run. */
  function Decisions(c: Config, pruneWindow: real, trace: seq<Event>): seq<bool> {
    if trace == [] then []
    else
      var before, e := trace[..|trace| - 1], trace[|trace| - 1];
      Decisions(c, pruneWindow, before)
      + if e.Request? then [TableAccepts(c, Table(c, pruneWindow, before), e.client, e.now)] else []
  }

  /** What the rule on the accepted requests answers. */
  function RuleDecisions(c: Config, trace: seq<Event>): seq<bool> {
    if trace == [] then []
    else
      var before, e := trace[..|trace| - 1], trace[|trace| - 1];
      RuleDecisions(c, before) + if e.Request? then [Accepts(c, before, e.client, e.now)] else []
  }

  ghost predicate InTime(trace: seq<Event>) {
    forall i, j | 0 <= i < j < |trace| :: trace[i].now <= trace[j].now
  }

  /** The time of the last event; any time will do for an empty run. */
  function Clock(trace: seq<Event>, start: real): real {
    if trace == [] then start else trace[|trace| - 1].now
  }

  lemma TimesGoOn(trace: seq<Event>, e: Event)
    requires InTime(trace) && Clock(trace, e.now) <= e.now
    ensures InTime(trace + [e])
  {
  }

  lemma TableNext(c: Config, pruneWindow: real, trace: seq<Event>, e: Event)
    ensures Table(c, pruneWindow, trace + [e]) == TableStep(c, pruneWindow, Table(c, pruneWindow, trace), e)
    ensures Decisions(c, pruneWindow, trace + [e])
         == Decisions(c, pruneWindow, trace)
            + if e.Request? then [TableAccepts(c, Table(c, pruneWindow, trace), e.client, e.now)] else []
  {
    assert (trace + [e])[..|trace|] == trace;
  }

  lemma PruneNext(c: Config, pruneWindow: real, trace: seq<Event>, hits: map<string, seq<real>>, now: real)
    requires InTime(trace) && Clock(trace, now) <= now && hits == Table(c, pruneWindow, trace)
    ensures InTime(trace + [Prune(now)])
    ensures Table(c, pruneWindow, trace + [Prune(now)]) == hits - StaleClients(hits, now - pruneWindow)
  {
    hide Table, Decisions, InTime, StaleClients;
    TableNext(c, pruneWindow, trace, Prune(now));
    TimesGoOn(trace, Prune(now));
  }

  lemma NothingAgrees(c: Config, clock: real)
    ensures Agrees(c, [], clock, map[])
  {
  }

  lemma TableStepAgrees(c: Config, pruneWindow: real, trace: seq<Event>, clock: real, hits: map<string, seq<real>>,
                        e: Event)
    requires Agrees(c, trace, clock, hits) && clock <= e.now && pruneWindow >= c.window
    ensures Agrees(c, trace + [e], e.now, TableStep(c, pruneWindow, hits, e))
    ensures e.Request? ==> TableAccepts(c, hits, e.client, e.now) == Accepts(c, trace, e.client, e.now)
  {
    hide Agrees, After, Accepts;
    match e
    case Request(client, now) =>
      AgreesAfterRequest(c, trace, clock, hits, client, now, TableStep(c, pruneWindow, hits, e));
    case Prune(now) =>
      AgreesAfterPrune(c, trace, clock, hits, pruneWindow, now, TableStep(c, pruneWindow, hits, e));
  }

  /** With a prune window no shorter than the limiter's, the table answers every request by the rule. */
  lemma {:induction false} TableFollowsRule(c: Config, pruneWindow: real, trace: seq<Event>, start: real)
    requires InTime(trace) && pruneWindow >= c.window
    ensures Agrees(c, trace, Clock(trace, start), Table(c, pruneWindow, trace))
    ensures Decisions(c, pruneWindow, trace) == RuleDecisions(c, trace)
  {
    hide Agrees, TableStep, TableAccepts, Accepts;
    if trace == [] {
      NothingAgrees(c, start);
    } else {
      var before, e := trace[..|trace| - 1], trace[|trace| - 1];
      TableFollowsRule(c, pruneWindow, before, e.now);
      TableStepAgrees(c, pruneWindow, before, Clock(before, e.now), Table(c, pruneWindow, before), e);
      assert trace == before + [e];
    }
  }

  function WithoutPrunes(trace: seq<Event>): seq<Event> {
    if trace == [] then []
    else WithoutPrunes(trace[..|trace| - 1]) + if trace[|trace| - 1].Request? then [trace[|trace| - 1]] else []
  }

  lemma WithoutPrunesNext(trace: seq<Event>, e: Event)
    ensures WithoutPrunes(trace + [e]) == if e.Request? then WithoutPrunes(trace) + [e] else WithoutPrunes(trace)
  {
    assert (trace + [e])[..|trace|] == trace;
  }

  lemma {:induction false} WithoutPrunesInTime(trace: seq<Event>, last: real)
    requires InTime(trace) && forall i | 0 <= i < |trace| :: trace[i].now <= last
    ensures InTime(WithoutPrunes(trace))
            && forall i | 0 <= i < |WithoutPrunes(trace)| :: WithoutPrunes(trace)[i].now <= last
  {
    if trace != [] {
      WithoutPrunesInTime(trace[..|trace| - 1], trace[|trace| - 1].now);
    }
  }

  lemma SameHistorySameRule(c: Config, a: seq<Event>, b: seq<Event>, client: string, now: real)
    requires Accepted(c, a, client) == Accepted(c, b, client)
    ensures Accepts(c, a, client, now) == Accepts(c, b, client, now)
  {
  }

  lemma RuleNext(c: Config, trace: seq<Event>, e: Event)
    ensures RuleDecisions(c, trace + [e])
         == RuleDecisions(c, trace) + if e.Request? then [Accepts(c, trace, e.client, e.now)] else []
  {
    assert (trace + [e])[..|trace|] == trace;
  }

  lemma {:induction false} RuleIgnoresPrunes(c: Config, trace: seq<Event>)
    ensures forall client: string :: Accepted(c, trace, client) == Accepted(c, WithoutPrunes(trace), client)
    ensures RuleDecisions(c, trace) == RuleDecisions(c, WithoutPrunes(trace))
  {
    if trace != [] {
      hide Accepts, Accepted, RuleDecisions, WithoutPrunes;
      var before, e := trace[..|trace| - 1], trace[|trace| - 1];
      var b := WithoutPrunes(before);
      RuleIgnoresPrunes(c, before);
      assert trace == before + [e];
      WithoutPrunesNext(before, e);
      RuleNext(c, before, e);
      RuleNext(c, b, e);
      forall client: string
        ensures Accepted(c, trace, client) == Accepted(c, WithoutPrunes(trace), client)
        ensures e.Request? ==> Accepts(c, before, e.client, e.now) == Accepts(c, b, e.client, e.now)
      {
        AcceptedNext(c, before, e, client);
        AcceptedNext(c, b, e, client);
        if e.Request? {
          SameHistorySameRule(c, before, b, e.client, e.now);
        }
        assert Accepted(c, before, client) + [] == Accepted(c, before, client);
      }
    }
  }

  /** The table answers alike with and without its clean-ups. */
  ghost predicate PrunesDoNotMatter(c: Config, pruneWindow: real, trace: seq<Event>) {
    Decisions(c, pruneWindow, trace) == Decisions(c, pruneWindow, WithoutPrunes(trace))
  }

  lemma PruningIsInvisible(c: Config, pruneWindow: real, trace: seq<Event>)
    requires InTime(trace) && pruneWindow >= c.window
    ensures PrunesDoNotMatter(c, pruneWindow, trace)
  {
    hide Decisions, RuleDecisions, Agrees, Table, InTime;
    var last := Clock(trace, 0.0);
    TableFollowsRule(c, pruneWindow, trace, 0.0);
    TimesUpToClock(trace);
    WithoutPrunesInTime(trace, last);
    TableFollowsRule(c, pruneWindow, WithoutPrunes(trace), 0.0);
    RuleIgnoresPrunes(c, trace);
  }

  lemma TimesUpToClock(trace: seq<Event>)
    requires InTime(trace)
    ensures forall i | 0 <= i < |trace| :: trace[i].now <= Clock(trace, 0.0)
  {
  }

  /* ---- the exact condition ---- */

  ghost predicate Trivial(c: Config) {
    c.requests <= 0 || c.window <= 0.0
  }

  ghost predicate PastRows(hits: map<string, seq<real>>, clock: real) {
    forall client | client in hits :: forall i | 0 <= i < |hits[client]| :: hits[client][i] <= clock
  }

  lemma {:induction false} AfterIsPart(ts: seq<real>, cutoff: real)
    ensures forall t | t in After(ts, cutoff) :: t in ts
  {
    if ts != [] {
      AfterIsPart(ts[..|ts| - 1], cutoff);
    }
  }

  lemma PastRowsStep(c: Config, pruneWindow: real, hits: map<string, seq<real>>, clock: real, e: Event)
    requires PastRows(hits, clock) && clock <= e.now
    ensures PastRows(TableStep(c, pruneWindow, hits, e), e.now)
  {
    hide After, Stale;
    if e.Request? {
      var row := After(Row(hits, e.client), e.now - c.window);
      AfterIsPart(Row(hits, e.client), e.now - c.window);
      assert forall i | 0 <= i < |row| :: row[i] in row;
    }
  }

  lemma TrivialAnswer(c: Config, hits: map<string, seq<real>>, client: string, now: real)
    requires Trivial(c) && PastRows(hits, now)
    ensures TableAccepts(c, hits, client, now) <==> c.requests > 0
  {
    if c.requests > 0 {
      AfterNone(Row(hits, client), now - c.window);
    }
  }

  function Same(n: nat, b: bool): seq<bool> {
    seq(n, i => b)
  }

  function Requests(trace: seq<Event>): nat {
    if trace == [] then 0 else Requests(trace[..|trace| - 1]) + if trace[|trace| - 1].Request? then 1 else 0
  }

  /** With no request allowed, or an empty window, every request gets the same answer. */
  lemma {:induction false} TrivialDecisions(c: Config, pruneWindow: real, trace: seq<Event>, start: real)
    requires Trivial(c) && InTime(trace)
    ensures PastRows(Table(c, pruneWindow, trace), Clock(trace, start))
    ensures Decisions(c, pruneWindow, trace) == Same(Requests(trace), c.requests > 0)
  {
    if trace != [] {
      hide TableStep, TableAccepts, PastRows, Trivial;
      var before, e := trace[..|trace| - 1], trace[|trace| - 1];
      TrivialDecisions(c, pruneWindow, before, e.now);
      PastRowsStep(c, pruneWindow, Table(c, pruneWindow, before), Clock(before, e.now), e);
      if e.Request? {
        LaterPast(Table(c, pruneWindow, before), Clock(before, e.now), e.now);
        TrivialAnswer(c, Table(c, pruneWindow, before), e.client, e.now);
      }
    }
  }

  lemma LaterPast(hits: map<string, seq<real>>, clock: real, later: real)
    requires PastRows(hits, clock) && clock <= later
    ensures PastRows(hits, later)
  {
  }

  lemma {:induction false} RequestsWithoutPrunes(trace: seq<Event>)
    ensures Requests(WithoutPrunes(trace)) == Requests(trace)
  {
    if trace != [] {
      hide WithoutPrunes, Requests;
      var before, e := trace[..|trace| - 1], trace[|trace| - 1];
      assert trace == before + [e];
      RequestsWithoutPrunes(before);
      WithoutPrunesNext(before, e);
      RequestsNext(before, e);
      RequestsNext(WithoutPrunes(before), e);
    }
  }

  lemma RequestsNext(trace: seq<Event>, e: Event)
    ensures Requests(trace + [e]) == Requests(trace) + if e.Request? then 1 else 0
  {
    assert (trace + [e])[..|trace|] == trace;
  }

  lemma TrivialPrunes(c: Config, pruneWindow: real, trace: seq<Event>)
    requires Trivial(c) && InTime(trace)
    ensures PrunesDoNotMatter(c, pruneWindow, trace)
  {
    hide Decisions, Table, InTime, Trivial;
    TimesUpToClock(trace);
    WithoutPrunesInTime(trace, Clock(trace, 0.0));
    TrivialDecisions(c, pruneWindow, trace, 0.0);
    TrivialDecisions(c, pruneWindow, WithoutPrunes(trace), 0.0);
    RequestsWithoutPrunes(trace);
  }

  /** `n` requests of one client at time 0. */
  function Burst(client: string, n: nat): (trace: seq<Event>)
    ensures |trace| == n && forall i | 0 <= i < n :: trace[i] == Request(client, 0.0)
  {
    seq(n, i => Request(client, 0.0))
  }

  function Zeros(n: nat): (ts: seq<real>)
    ensures |ts| == n && forall i | 0 <= i < n :: ts[i] == 0.0
  {
    seq(n, i => 0.0)
  }

  lemma {:induction false} AfterAll(ts: seq<real>, cutoff: real)
    requires forall i | 0 <= i < |ts| :: ts[i] > cutoff
    ensures After(ts, cutoff) == ts
  {
    if ts != [] {
      AfterAll(ts[..|ts| - 1], cutoff);
      assert ts == ts[..|ts| - 1] + [ts[|ts| - 1]];
    }
  }

  /** A burst of as many requests as are allowed fills the client's row. */
  lemma {:induction false} BurstFills(c: Config, pruneWindow: real, client: string, n: nat)
    requires c.window > 0.0 && 0 < n <= c.requests
    ensures Table(c, pruneWindow, Burst(client, n)) == map[client := Zeros(n)]
    ensures WithoutPrunes(Burst(client, n)) == Burst(client, n)
  {
    hide After, Table, WithoutPrunes;
    var before := Burst(client, n - 1);
    assert Burst(client, n) == before + [Request(client, 0.0)];
    TableNext(c, pruneWindow, before, Request(client, 0.0));
    WithoutPrunesNext(before, Request(client, 0.0));
    AfterAll(Zeros(n - 1), 0.0 - c.window);
    assert Zeros(n) == Zeros(n - 1) + [0.0];
    if n > 1 {
      BurstFills(c, pruneWindow, client, n - 1);
    } else {
      EmptyRun(c, pruneWindow);
      assert before == [] && Zeros(0) == [];
    }
  }

  lemma EmptyRun(c: Config, pruneWindow: real)
    ensures Table(c, pruneWindow, []) == map[] && WithoutPrunes([]) == []
  {
  }

  /** A full row, a clean-up that finds it stale too early, and one more request: accepted because of the clean-up. */
  lemma ShortPruneShows(c: Config, pruneWindow: real, client: string) returns (trace: seq<Event>)
    requires c.requests > 0 && c.window > 0.0 && pruneWindow < c.window
    ensures InTime(trace) && !PrunesDoNotMatter(c, pruneWindow, trace)
  {
    hide After, Table, Decisions, WithoutPrunes;
    var n: nat := c.requests;
    var m := ((if pruneWindow > 0.0 then pruneWindow else 0.0) + c.window) / 2.0;
    var full, last := Burst(client, n), Request(client, m);
    BurstFills(c, pruneWindow, client, n);
    TableNext(c, pruneWindow, full, Prune(m));
    TableNext(c, pruneWindow, full + [Prune(m)], last);
    TableNext(c, pruneWindow, full, last);
    WithoutPrunesNext(full, Prune(m));
    WithoutPrunesNext(full + [Prune(m)], last);
    AfterAll(Zeros(n), m - c.window);
    AfterNone([], m - c.window);
    trace := full + [Prune(m)] + [last];
    assert Table(c, pruneWindow, full + [Prune(m)]) == map[];
    assert TableAccepts(c, map[], client, m) && !TableAccepts(c, map[client := Zeros(n)], client, m);
    var d := Decisions(c, pruneWindow, full);
    assert Decisions(c, pruneWindow, trace) == d + [] + [true];
    assert Decisions(c, pruneWindow, WithoutPrunes(trace)) == d + [false];
    assert (d + [] + [true])[|d|] != (d + [false])[|d|];
  }

  /**
   * Clean-ups anywhere change no answer on any run in time order exactly when the prune window is no shorter than the
   * limiter's, or the limiter answers all requests alike anyway.
   */
  lemma PruningIsInvisibleIff(c: Config, pruneWindow: real)
    ensures (forall trace: seq<Event> | InTime(trace) :: PrunesDoNotMatter(c, pruneWindow, trace))
       <==> pruneWindow >= c.window || Trivial(c)
  {
    hide PrunesDoNotMatter, InTime, Trivial;
    if pruneWindow >= c.window || Trivial(c) {
      forall trace: seq<Event> | InTime(trace)
        ensures PrunesDoNotMatter(c, pruneWindow, trace)
      {
        if pruneWindow >= c.window {
          PruningIsInvisible(c, pruneWindow, trace);
        } else {
          TrivialPrunes(c, pruneWindow, trace);
        }
      }
    } else {
      NotTrivial(c);
      var trace := ShortPruneShows(c, pruneWindow, "");
    }
  }

  lemma NotTrivial(c: Config)
    ensures Trivial(c) || (c.requests > 0 && c.window > 0.0)
  {
  }

  lemma {:induction false} AcceptedInThePast(c: Config, trace: seq<Event>, client: string, now: real)
    requires forall i | 0 <= i < |trace| :: trace[i].now <= now
    ensures forall i | 0 <= i < |Accepted(c, trace, client)| :: Accepted(c, trace, client)[i] <= now
  {
    hide Accepts;
    if trace != [] {
      AcceptedInThePast(c, trace[..|trace| - 1], client, now);
    }
  }

  lemma {:induction false} CountUpTo(ts: seq<real>, lo: real, hi: real)
    requires forall i | 0 <= i < |ts| :: ts[i] <= hi
    ensures |After(ts, lo)| == CountIn(ts, lo, hi)
  {
    if ts != [] {
      CountUpTo(ts[..|ts| - 1], lo, hi);
    }
  }

  /** The rule in numbers: fewer than `requests` of the client's requests were accepted in (now - window, now]. */
  lemma AcceptsByCount(c: Config, trace: seq<Event>, client: string, now: real)
    requires InTime(trace) && Clock(trace, now) <= now
    ensures Accepts(c, trace, client, now) <==> CountIn(Accepted(c, trace, client), now - c.window, now) < c.requests
  {
    hide Accepted, After, CountIn;
    forall i | 0 <= i < |trace| ensures trace[i].now <= now {
      assert trace[i].now <= trace[|trace| - 1].now;
    }
    AcceptedInThePast(c, trace, client, now);
    CountUpTo(Accepted(c, trace, client), now - c.window, now);
    SameRule(c, trace, client, now);
  }

  class RateLimiter {
    const config: Config
    const pruneWindow: real
    var hits: map<string, seq<real>>
    ghost var trace: seq<Event>

    /** The table is the one the run so far gives. */
    ghost predicate Valid()
      reads this
    {
      InTime(trace) && hits == Table(config, pruneWindow, trace)
    }

    constructor (config: Config, pruneWindow: real)
      ensures Valid() && trace == [] && this.config == config && this.pruneWindow == pruneWindow
    {
      this.config, this.pruneWindow, hits, trace := config, pruneWindow, map[], [];
    }

    /**
     * The answer is the table's; with a long enough prune window it is yes exactly when fewer than `requests` of the
     * client's requests were accepted within the last window.
     */
    method Dispatch(exempt: bool, client: string, now: real) returns (ok: bool)
      requires Valid() && Clock(trace, now) <= now
      modifies this
      ensures Valid()
      ensures exempt ==> ok && trace == old(trace)
      ensures !exempt ==> trace == old(trace) + [Request(client, now)]
      ensures !exempt ==> Decisions(config, pruneWindow, trace) == Decisions(config, pruneWindow, old(trace)) + [ok]
      ensures !exempt && pruneWindow >= config.window ==>
                ok == (CountIn(Accepted(config, old(trace), client), now - config.window, now) < config.requests)
    {
      hide After, Accepts, Table, Decisions, Agrees, InTime, CountIn, Accepted;
      if exempt {
        return true;
      }
      AcceptsByCount(config, trace, client, now);
      TimesGoOn(trace, Request(client, now));
      if pruneWindow >= config.window {
        TableFollowsRule(config, pruneWindow, trace, now);
        TableStepAgrees(config, pruneWindow, trace, Clock(trace, now), hits, Request(client, now));
      }
      TableNext(config, pruneWindow, trace, Request(client, now));
      var row := After(Row(hits, client), now - config.window);
      ok := |row| < config.requests;
      if ok {
        row := row + [now];
      }
      hits := hits[client := row];
      trace := trace + [Request(client, now)];
    }

    /** Exactly the stale rows go. */
    method PruneInactive(now: real) returns (removed: nat)
      requires Valid() && Clock(trace, now) <= now
      modifies this
      ensures Valid() && trace == old(trace) + [Prune(now)]
      ensures OnlyStaleGone(old(hits), hits, now - pruneWindow) && removed == |old(hits)| - |hits|
    {
      hide Table, TableStep, Stale, StaleClients, OnlyStaleGone, InTime, Decisions, Clock;
      ghost var was, before := hits, trace;
      PruneNext(config, pruneWindow, before, was, now);
      WithoutStale(was, now - pruneWindow);
      var stale := StaleClients(hits, now - pruneWindow);
      hits := hits - stale;
      removed := |stale|;
      trace := trace + [Prune(now)];
    }
  }
}
