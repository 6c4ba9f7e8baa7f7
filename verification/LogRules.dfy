/** The log rule engine: slots per (rule, key), bounded memory, and alerts that follow the full event history. */
module LogRules {
  import opened Wrappers
  import opened Deque
  import opened PyDict
  import opened SlidingWindow

  const MAX_SAMPLES: nat := 3
  const MAX_KEYS_PER_RULE: nat := 50_000

  /** A parsed log line; an absent address or user is the empty string. */
  datatype Event = Event(ts: real, service: string, ip: string, user: string, raw: string)

  datatype Rule = Rule(name: string, service: string, policy: Policy, byIp: bool, untrustedOnly: bool,
                       conditions: Event -> bool)

  datatype Alert = Alert(rule: string, key: string, ip: string, count: nat, firstTs: real, lastTs: real,
                         samples: seq<string>)

  datatype Slot = Slot(rule: string, key: string)

  function KeyOf(r: Rule, ev: Event): string {
    if r.byIp then ev.ip else ev.user
  }

  /** The event counts for the rule: it matches, is not exempt, and has a key. */
  predicate Applies(r: Rule, trusted: string -> bool, ev: Event) {
    && ev.service == r.service && r.conditions(ev)
    && !(r.untrustedOnly && trusted(ev.ip))
    && KeyOf(r, ev) != ""
  }

  /** The event counts for the rule under the key, field by field. */
  ghost predicate CountsFor(ev: Event, r: Rule, trusted: string -> bool, key: string) {
    && ev.service == r.service && r.conditions(ev)
    && !(r.untrustedOnly && trusted(ev.ip))
    && key != "" && key == if r.byIp then ev.ip else ev.user
  }

  /** The full history of one (rule, key): every event that ever counted for it. */
  ghost function History(trace: seq<Event>, r: Rule, trusted: string -> bool, key: string): seq<Hit> {
    if trace == [] then []
    else
      var ev := trace[|trace| - 1];
      History(trace[..|trace| - 1], r, trusted, key)
      + (if CountsFor(ev, r, trusted, key) then [Hit(ev.ts, ev.raw)] else [])
  }

  lemma AppliesIsCounts(r: Rule, trusted: string -> bool, ev: Event)
    ensures KeyOf(r, ev) == if r.byIp then ev.ip else ev.user
    ensures forall key :: CountsFor(ev, r, trusted, key) <==> Applies(r, trusted, ev) && KeyOf(r, ev) == key
  {
  }

  lemma HistoryNext(trace: seq<Event>, ev: Event, r: Rule, trusted: string -> bool, key: string)
    ensures History(trace + [ev], r, trusted, key) ==
            if Applies(r, trusted, ev) && KeyOf(r, ev) == key
            then History(trace, r, trusted, key) + [Hit(ev.ts, ev.raw)]
            else History(trace, r, trusted, key)
  {
    assert (trace + [ev])[..|trace|] == trace;
  }

  /** The last few non-empty raw lines of the window. */
  function Samples(hits: seq<Hit>): seq<string> {
    NonEmpty(Newest(hits, MAX_SAMPLES))
  }

  function NonEmpty(hits: seq<Hit>): seq<string> {
    if hits == [] then []
    else if hits[0].raw == "" then NonEmpty(hits[1..])
    else [hits[0].raw] + NonEmpty(hits[1..])
  }

  function MakeAlert(r: Rule, ev: Event, hits: seq<Hit>): Alert
    requires hits != []
  {
    Alert(r.name, KeyOf(r, ev), ev.ip, |hits|, hits[0].ts, ev.ts, Samples(hits))
  }

  /** The raw line of the i-th hit, if there is one. */
  ghost function Line(hits: seq<Hit>, i: int): seq<string> {
    if 0 <= i < |hits| && hits[i].raw != "" then [hits[i].raw] else []
  }

  /** The alert a rule owes for the newest event, by a plain count over the full history. */
  ghost function OwedAlert(r: Rule, trusted: string -> bool, trace: seq<Event>): Option<Alert>
    requires trace != []
  {
    var ev := trace[|trace| - 1];
    var key := if r.byIp then ev.ip else ev.user;
    var h := History(trace, r, trusted, key);
    if CountsFor(ev, r, trusted, key) && r.policy.threshold <= 10_000 && Fires(r.policy, h) then
      var window := Newest(Since(h, ev.ts - r.policy.window as real), 10_000);
      if window == [] then None
      else
        var n := |window|;
        Some(Alert(r.name, key, ev.ip, n, window[0].ts, ev.ts,
                   Line(window, n - 3) + Line(window, n - 2) + Line(window, n - 1)))
    else None
  }

  lemma SamplesAreLines(hits: seq<Hit>)
    ensures var n := |hits|; Samples(hits) == Line(hits, n - 3) + Line(hits, n - 2) + Line(hits, n - 1)
  {
    var n := |hits|;
    hide NonEmpty;
    if n == 0 {
      NonEmptyNext([]);
    } else if n == 1 {
      NonEmptyOf(hits[0]);
      assert hits == [hits[0]];
    } else if n == 2 {
      assert hits == [hits[0], hits[1]];
      NonEmptyNext(hits);
      assert hits[1..] == [hits[1]];
      NonEmptyOf(hits[1]);
    } else {
      var last := Newest(hits, 3);
      NonEmptyNext(last);
      NonEmptyNext(last[1..]);
      assert last[1..][1..] == [hits[n - 1]];
      NonEmptyOf(hits[n - 1]);
    }
  }

  lemma NonEmptyNext(hits: seq<Hit>)
    ensures NonEmpty(hits) == if hits == [] then [] else Line(hits, 0) + NonEmpty(hits[1..])
  {
  }

  lemma NonEmptyOf(hit: Hit)
    ensures NonEmpty([hit]) == Line([hit], 0)
  {
    assert [hit][1..] == [];
    NonEmptyNext([hit]);
    NonEmptyNext([]);
  }

  /** The events since `lo` that count for the rule under the key. */
  ghost function InWindow(trace: seq<Event>, r: Rule, trusted: string -> bool, key: string, lo: real): set<nat> {
    set i: nat | i < |trace| && CountsFor(trace[i], r, trusted, key) && trace[i].ts >= lo
  }

  lemma {:induction false} WindowSize(trace: seq<Event>, r: Rule, trusted: string -> bool, key: string, lo: real)
    ensures |Since(History(trace, r, trusted, key), lo)| == |InWindow(trace, r, trusted, key, lo)|
  {
    if trace != [] {
      hide *;
      var init, ev := trace[..|trace| - 1], trace[|trace| - 1];
      WindowSize(init, r, trusted, key, lo);
      assert trace == init + [ev];
      InWindowNext(init, ev, r, trusted, key, lo);
      SinceHistoryNext(init, ev, r, trusted, key, lo);
    }
  }

  lemma InWindowNext(trace: seq<Event>, ev: Event, r: Rule, trusted: string -> bool, key: string, lo: real)
    ensures |InWindow(trace + [ev], r, trusted, key, lo)|
         == |InWindow(trace, r, trusted, key, lo)| + if CountsFor(ev, r, trusted, key) && ev.ts >= lo then 1 else 0
  {
    hide CountsFor;
    var before, after := InWindow(trace, r, trusted, key, lo), InWindow(trace + [ev], r, trusted, key, lo);
    assert |trace| !in before;
    assert after == if CountsFor(ev, r, trusted, key) && ev.ts >= lo then before + {|trace|} else before;
  }

  lemma SinceHistoryNext(trace: seq<Event>, ev: Event, r: Rule, trusted: string -> bool, key: string, lo: real)
    ensures |Since(History(trace + [ev], r, trusted, key), lo)|
            == |Since(History(trace, r, trusted, key), lo)|
               + if CountsFor(ev, r, trusted, key) && ev.ts >= lo then 1 else 0
  {
    hide CountsFor, Since;
    var h := History(trace, r, trusted, key);
    assert (trace + [ev])[..|trace|] == trace;
    assert History(trace + [ev], r, trusted, key) ==
           if CountsFor(ev, r, trusted, key) then h + [Hit(ev.ts, ev.raw)] else h;
    SinceNext(h, Hit(ev.ts, ev.raw), lo);
  }

  /**
   * What an alert for the newest event says: the rule, the key by the rule's grouping, and how many events of the whole
   * trace counted in the window (up to 10 000), which is at least the threshold.
   */
  ghost predicate Tells(a: Alert, r: Rule, trusted: string -> bool, trace: seq<Event>)
    requires trace != []
  {
    var ev := trace[|trace| - 1];
    var n := |InWindow(trace, r, trusted, a.key, ev.ts - r.policy.window as real)|;
    && a.rule == r.name && a.key == (if r.byIp then ev.ip else ev.user) && a.ip == ev.ip && a.lastTs == ev.ts
    && a.count == (if n < 10_000 then n else 10_000) && a.count >= r.policy.threshold
  }

  lemma OwedTells(r: Rule, trusted: string -> bool, trace: seq<Event>)
    requires trace != []
    ensures var owed := OwedAlert(r, trusted, trace); owed.Some? ==> Tells(owed.value, r, trusted, trace)
  {
    hide History, Since, InWindow, CountsFor;
    var ev := trace[|trace| - 1];
    var key := if r.byIp then ev.ip else ev.user;
    WindowSize(trace, r, trusted, key, ev.ts - r.policy.window as real);
    if CountsFor(ev, r, trusted, key) {
      LastEvent(trace, r, trusted, key);
    }
  }

  lemma LastEvent(trace: seq<Event>, r: Rule, trusted: string -> bool, key: string)
    requires trace != [] && CountsFor(trace[|trace| - 1], r, trusted, key)
    ensures var h := History(trace, r, trusted, key); h != [] && h[|h| - 1].ts == trace[|trace| - 1].ts
  {
    hide CountsFor;
  }

  ghost function OwedAlerts(rs: seq<Rule>, trusted: string -> bool, trace: seq<Event>): seq<Alert>
    requires trace != []
  {
    if rs == [] then []
    else
      var owed := OwedAlert(rs[|rs| - 1], trusted, trace);
      OwedAlerts(rs[..|rs| - 1], trusted, trace) + (if owed.Some? then [owed.value] else [])
  }

  function RulesFor(rules: seq<Rule>, service: string): (rs: seq<Rule>)
    ensures forall i | 0 <= i < |rs| :: rs[i].service == service
  {
    if rules == [] then []
    else
      var init, last := RulesFor(rules[..|rules| - 1], service), rules[|rules| - 1];
      if last.service == service then init + [last] else init
  }

  ghost predicate DistinctNames(rules: seq<Rule>) {
    forall i, j | 0 <= i < j < |rules| :: rules[i].name != rules[j].name
  }

  lemma {:induction false} RulesForService(rules: seq<Rule>, service: string)
    ensures forall r :: r in RulesFor(rules, service) <==> r in rules && r.service == service
    ensures DistinctNames(rules) ==> DistinctNames(RulesFor(rules, service))
  {
    if rules != [] {
      var init, last := rules[..|rules| - 1], rules[|rules| - 1];
      RulesForService(init, service);
      assert forall r :: r in rules <==> r in init || r == last;
      var rs := RulesFor(init, service);
      if DistinctNames(rules) {
        assert DistinctNames(init);
        forall i | 0 <= i < |rs| ensures rs[i].name != last.name {
          assert rs[i] in init;
        }
      }
    }
  }

  /* ---- the stored slots ---- */

  /** In time order, and not after `clock`. */
  ghost predicate EndsBy(h: seq<Hit>, clock: real) {
    Ordered(h) && (h != [] ==> h[|h| - 1].ts <= clock)
  }

  datatype Store = Store(hits: Dict<Slot, seq<Hit>>, lastAlert: map<Slot, real>, keysPerRule: map<string, nat>) {

    function Hits(s: Slot): Option<seq<Hit>> {
      hits.Get(s)
    }

    function Last(s: Slot): Option<real> {
      if s in lastAlert then Some(lastAlert[s]) else None
    }

    function Count(rule: string): nat {
      if rule in keysPerRule then keysPerRule[rule] else 0
    }

    /** The store with one more slot, still empty and counted. */
    function WithSlot(slot: Slot): Store {
      Store(hits.Put(slot, []), lastAlert, keysPerRule[slot.rule := Count(slot.rule) + 1])
    }

    /** The per-rule counters are right, and nothing is remembered about an untracked slot. */
    ghost predicate Consistent() {
      && hits.Valid()
      && (forall s | s in lastAlert :: s in hits.vals)
      && (forall rule :: Count(rule) == |SlotsOf(hits.keys, rule)|)
    }

    /** Memory is bounded: events per slot, and slots per rule. */
    ghost predicate Bounded() {
      && (forall s | s in hits.vals :: |hits.vals[s]| <= MAX_WINDOW_EVENTS)
      && (forall rule :: Count(rule) <= 50_000)
    }

    ghost predicate Timely(clock: real) {
      forall s | s in hits.vals :: EndsBy(hits.vals[s], clock)
    }
  }

  /** The tracked slots of one rule, oldest first. */
  function SlotsOf(keys: seq<Slot>, rule: string): seq<Slot> {
    if keys == [] then []
    else
      var init, last := SlotsOf(keys[..|keys| - 1], rule), keys[|keys| - 1];
      if last.rule == rule then init + [last] else init
  }

  predicate IsLive(vals: map<Slot, seq<Hit>>, s: Slot, since: real) {
    s in vals && vals[s] != [] && vals[s][|vals[s]| - 1].ts >= since
  }

  /** The slots that still have an event in the window. */
  function LiveOf(slots: seq<Slot>, vals: map<Slot, seq<Hit>>, since: real): seq<Slot> {
    if slots == [] then []
    else
      (if IsLive(vals, slots[0], since) then [slots[0]] else []) + LiveOf(slots[1..], vals, since)
  }

  lemma {:induction false} SlotsOfMembers(keys: seq<Slot>, rule: string)
    ensures forall s :: s in SlotsOf(keys, rule) <==> s in keys && s.rule == rule
    ensures NoDuplicates(keys) ==> NoDuplicates(SlotsOf(keys, rule))
  {
    if keys != [] {
      var init, last := keys[..|keys| - 1], keys[|keys| - 1];
      SlotsOfMembers(init, rule);
      assert forall s :: s in keys <==> s in init || s == last;
      var rest := SlotsOf(init, rule);
      if NoDuplicates(keys) {
        assert NoDuplicates(init) && last !in init;
        assert forall i | 0 <= i < |rest| :: rest[i] in rest;
      }
    }
  }

  lemma {:induction false} SlotsOfWithout(keys: seq<Slot>, s: Slot, rule: string)
    ensures SlotsOf(Without(keys, s), rule) == Without(SlotsOf(keys, rule), s)
  {
    if keys != [] {
      var init, last := keys[..|keys| - 1], keys[|keys| - 1];
      SlotsOfWithout(init, s, rule);
      var w := Without(init, s);
      assert (w + [last])[..|w|] == w;
      var so := SlotsOf(init, rule);
      assert (so + [last])[..|so|] == so;
    }
  }

  lemma SlotsOfAppend(keys: seq<Slot>, s: Slot, rule: string)
    ensures SlotsOf(keys + [s], rule) == SlotsOf(keys, rule) + (if s.rule == rule then [s] else [])
  {
    assert (keys + [s])[..|keys|] == keys;
  }

  lemma {:induction false} WithoutMiddle<T(!new)>(a: seq<T>, x: T, b: seq<T>)
    requires x !in a && x !in b
    ensures Without(a + [x] + b, x) == a + b
  {
    var all := a + [x] + b;
    if b == [] {
      assert all[..|all| - 1] == a;
      WithoutProperties(a, x);
    } else {
      var n := |b| - 1;
      assert all[..|all| - 1] == a + [x] + b[..n];
      WithoutMiddle(a, x, b[..n]);
      assert a + b == a + b[..n] + [b[n]];
    }
  }

  lemma {:induction false} LiveOfSnoc(slots: seq<Slot>, s: Slot, vals: map<Slot, seq<Hit>>, since: real)
    ensures LiveOf(slots + [s], vals, since)
            == LiveOf(slots, vals, since) + (if IsLive(vals, s, since) then [s] else [])
  {
    if slots == [] {
      assert [] + [s] == [s] && [s][1..] == [];
    } else {
      LiveOfSnoc(slots[1..], s, vals, since);
      assert (slots + [s])[1..] == slots[1..] + [s];
    }
  }

  lemma {:induction false} LiveOfMembers(slots: seq<Slot>, vals: map<Slot, seq<Hit>>, since: real)
    ensures forall s :: s in LiveOf(slots, vals, since) <==> s in slots && IsLive(vals, s, since)
    ensures |LiveOf(slots, vals, since)| <= |slots|
  {
    if slots != [] {
      LiveOfMembers(slots[1..], vals, since);
      assert forall s :: s in slots <==> s == slots[0] || s in slots[1..];
    }
  }

  /** Liveness depends only on the values of the slots asked about. */
  lemma {:induction false} LiveOfSame(slots: seq<Slot>, vals: map<Slot, seq<Hit>>, vals': map<Slot, seq<Hit>>,
                                      since: real)
    requires forall s | s in slots :: s in vals <==> s in vals'
    requires forall s | s in slots && s in vals :: vals'[s] == vals[s]
    ensures LiveOf(slots, vals, since) == LiveOf(slots, vals', since)
  {
    if slots != [] {
      hide IsLive;
      LiveOfSame(slots[1..], vals, vals', since);
      SameSlotLive(vals, vals', slots[0], since);
    }
  }

  lemma SameSlotLive(vals: map<Slot, seq<Hit>>, vals': map<Slot, seq<Hit>>, s: Slot, since: real)
    requires (s in vals <==> s in vals') && (s in vals ==> vals'[s] == vals[s])
    ensures IsLive(vals, s, since) == IsLive(vals', s, since)
  {
  }

  /** What the first pass has left of a rule's slots when it has looked at the first `i`. */
  ghost function AfterFirst(slots: seq<Slot>, i: nat, vals: map<Slot, seq<Hit>>, since: real): seq<Slot>
    requires i <= |slots|
  {
    LiveOf(slots[..i], vals, since) + slots[i..]
  }

  lemma AfterFirstEnds(slots: seq<Slot>, vals: map<Slot, seq<Hit>>, since: real)
    ensures AfterFirst(slots, 0, vals, since) == slots
    ensures AfterFirst(slots, |slots|, vals, since) == LiveOf(slots, vals, since)
  {
    assert slots[..|slots|] == slots;
  }

  /** One step of the first pass over a rule's slots. */
  lemma ExpireStep(slots: seq<Slot>, i: nat, vals: map<Slot, seq<Hit>>, since: real)
    requires NoDuplicates(slots) && i < |slots|
    ensures var cur := AfterFirst(slots, i, vals, since);
            && slots[i] in cur
            && AfterFirst(slots, i + 1, vals, since)
               == if IsLive(vals, slots[i], since) then cur else Without(cur, slots[i])
  {
    hide LiveOf, Without;
    var cur := AfterFirst(slots, i, vals, since);
    var kept, s, rest := LiveOf(slots[..i], vals, since), slots[i], slots[i + 1..];
    assert slots[..i + 1] == slots[..i] + [s];
    LiveOfSnoc(slots[..i], s, vals, since);
    LiveOfMembers(slots[..i], vals, since);
    assert cur == kept + [s] + rest;
    assert s !in slots[..i] && s !in rest;
    WithoutMiddle(kept, s, rest);
  }

  /** What the second pass has still to look at when it has reached slot `i`: the live ones from there on. */
  ghost function RestOf(slots: seq<Slot>, i: nat, vals: map<Slot, seq<Hit>>, since: real): seq<Slot>
    requires i <= |slots|
  {
    LiveOf(slots[i..], vals, since)
  }

  lemma RestOfEnds(slots: seq<Slot>, vals: map<Slot, seq<Hit>>, since: real)
    ensures RestOf(slots, 0, vals, since) == LiveOf(slots, vals, since) == LiveOf(slots, vals, since)[0..]
    ensures RestOf(slots, |slots|, vals, since) == []
  {
    assert slots[0..] == slots && slots[|slots|..] == [];
  }

  /** One step of the second pass, over the slots that survived the first. */
  lemma OldestStep(slots: seq<Slot>, i: nat, vals: map<Slot, seq<Hit>>, since: real, live: seq<Slot>, k: nat)
    requires NoDuplicates(slots) && i < |slots| && k <= |live| && RestOf(slots, i, vals, since) == live[k..]
    ensures var cur, rest := RestOf(slots, i, vals, since), RestOf(slots, i + 1, vals, since);
            if slots[i] in cur then k < |live| && rest == live[k + 1..] == Without(cur, slots[i])
            else rest == cur
  {
    hide LiveOf, Without;
    var cur, rest := RestOf(slots, i, vals, since), RestOf(slots, i + 1, vals, since);
    LiveOfFirst(slots, i, vals, since);
    LiveOfMembers(slots[i + 1..], vals, since);
    assert slots[i] !in slots[i + 1..];
    if IsLive(vals, slots[i], since) {
      assert cur == [slots[i]] + rest;
      WithoutMiddle([], slots[i], rest);
      assert [] + [slots[i]] + rest == cur && [] + rest == rest;
      assert live[k + 1..] == cur[1..] == rest;
    } else {
      assert cur == rest;
    }
  }

  lemma NewestIsRest(live: seq<Slot>, k: nat, n: nat)
    requires k <= |live| && |live| - k <= n && (k == 0 || |live| - k >= n)
    ensures Newest(live, n) == live[k..]
  {
  }

  lemma LiveOfFirst(slots: seq<Slot>, i: nat, vals: map<Slot, seq<Hit>>, since: real)
    requires i < |slots|
    ensures LiveOf(slots[i..], vals, since)
            == (if IsLive(vals, slots[i], since) then [slots[i]] else []) + LiveOf(slots[i + 1..], vals, since)
  {
    assert slots[i..][1..] == slots[i + 1..];
  }

  /** `after` keeps some of the slots of `before` unchanged and has lost the others, all of them of one rule. */
  ghost predicate Shrunk(before: Store, after: Store, rule: string) {
    && after.Consistent()
    && (forall s | s in after.hits.vals :: s in before.hits.vals && after.hits.vals[s] == before.hits.vals[s]
                                           && after.Last(s) == before.Last(s))
    && (forall s | s in before.hits.vals && s.rule != rule :: s in after.hits.vals)
    && (forall other | other != rule :: SlotsOf(after.hits.keys, other) == SlotsOf(before.hits.keys, other))
  }

  lemma ShrunkTwice(a: Store, b: Store, c: Store, rule: string)
    requires Shrunk(a, b, rule) && Shrunk(b, c, rule)
    ensures Shrunk(a, c, rule)
  {
  }

  /* ---- the store against the full history ---- */

  predicate Fits(r: Rule) {
    r.policy.threshold <= MAX_WINDOW_EVENTS
  }

  /** The slot of the rule and the key holds the newest events of its history, however much has been forgotten. */
  ghost predicate KeyKept(st: Store, r: Rule, trusted: string -> bool, trace: seq<Event>, key: string, clock: real) {
    Kept(History(trace, r, trusted, key), st.Hits(Slot(r.name, key)), st.Last(Slot(r.name, key)), clock)
  }

  ghost predicate AllKept(st: Store, rules: seq<Rule>, trusted: string -> bool, trace: seq<Event>, clock: real) {
    forall r, key | r in rules :: KeyKept(st, r, trusted, trace, key, clock)
  }

  /** The slot of the rule and the key, tracked or not, agrees with its full history. */
  ghost predicate Agrees(st: Store, r: Rule, trusted: string -> bool, trace: seq<Event>, key: string, clock: real) {
    SlotAgrees(r.policy, History(trace, r, trusted, key), st.Hits(Slot(r.name, key)), st.Last(Slot(r.name, key)), clock)
  }

  /** Every slot of every rule whose threshold fits the deque agrees with the history. */
  ghost predicate AllAgree(st: Store, rs: seq<Rule>, trusted: string -> bool, trace: seq<Event>, clock: real) {
    forall r, key | r in rs && Fits(r) :: Agrees(st, r, trusted, trace, key, clock)
  }

  /** Observing `ev` forgets no live slot: its own exists, or there is a free place once the expired ones are gone. */
  ghost predicate HasRoom(st: Store, r: Rule, ev: Event) {
    || Slot(r.name, KeyOf(r, ev)) in st.hits.vals
    || st.Count(r.name) < 50_000
    || |LiveOf(SlotsOf(st.hits.keys, r.name), st.hits.vals, ev.ts - r.policy.window as real)| < 50_000
  }

  ghost predicate AllHaveRoom(st: Store, rs: seq<Rule>, trusted: string -> bool, ev: Event) {
    forall r | r in rs && Applies(r, trusted, ev) :: HasRoom(st, r, ev) && r.policy.cooldown <= r.policy.window
  }

  function OneStep(before: Store, r: Rule, ev: Event): (SlotState, Option<nat>) {
    var slot := Slot(r.name, KeyOf(r, ev));
    SlotStep(r.policy, SlotState(Stored(before.Hits(slot)), before.Last(slot)), Hit(ev.ts, ev.raw))
  }

  /** The slots of the rule once the event has its own: all there were, or in a full rule the newest live ones. */
  ghost function TrackedAfter(before: Store, r: Rule, ev: Event): seq<Slot> {
    var slot, slots := Slot(r.name, KeyOf(r, ev)), SlotsOf(before.hits.keys, r.name);
    if slot in before.hits.vals then slots
    else if before.Count(r.name) < 50_000 then slots + [slot]
    else Newest(LiveOf(slots, before.hits.vals, ev.ts - r.policy.window as real), 49_999) + [slot]
  }

  /** How one observation changes the store: the slot takes one step, others stay or are forgotten. */
  ghost predicate Observed(before: Store, after: Store, r: Rule, ev: Event) {
    var slot := Slot(r.name, KeyOf(r, ev));
    && after.Hits(slot) == Some(OneStep(before, r, ev).0.hits)
    && after.Last(slot) == OneStep(before, r, ev).0.last
    && SlotsOf(after.hits.keys, r.name) == TrackedAfter(before, r, ev)
    && OthersKept(before, after, r, ev)
  }

  /* ---- one event, rule by rule ---- */

  /** The same slots of one rule, in the same order and with the same contents. */
  ghost predicate SameSlots(a: Store, b: Store, rule: string) {
    && SlotsOf(b.hits.keys, rule) == SlotsOf(a.hits.keys, rule)
    && forall key ::
         b.Hits(Slot(rule, key)) == a.Hits(Slot(rule, key)) && b.Last(Slot(rule, key)) == a.Last(Slot(rule, key))
  }

  /** A slot the event is not for stays as it is or is forgotten; with room, only expired ones are forgotten. */
  ghost predicate StaysOrForgotten(before: Store, after: Store, r: Rule, ev: Event, key: string) {
    var slot := Slot(r.name, key);
    if slot in after.hits.vals then after.Hits(slot) == before.Hits(slot) && after.Last(slot) == before.Last(slot)
    else
      && after.Last(slot).None?
      && (slot in before.hits.vals && HasRoom(before, r, ev) ==>
            !IsLive(before.hits.vals, slot, ev.ts - r.policy.window as real))
  }

  ghost predicate Stepped(before: Store, after: Store, r: Rule, ev: Event) {
    var slot := Slot(r.name, KeyOf(r, ev));
    && after.Hits(slot) == Some(OneStep(before, r, ev).0.hits)
    && after.Last(slot) == OneStep(before, r, ev).0.last
    && SlotsOf(after.hits.keys, r.name) == TrackedAfter(before, r, ev)
    && forall key | key != slot.key :: StaysOrForgotten(before, after, r, ev, key)
  }

  /** What one event does to the slots of one rule. */
  ghost predicate RuleFed(before: Store, after: Store, r: Rule, trusted: string -> bool, ev: Event) {
    if Applies(r, trusted, ev) then Stepped(before, after, r, ev) else SameSlots(before, after, r.name)
  }

  /** The alert of one rule: its own slot, as it was before the event, takes one step. */
  ghost function RaisedAlert(before: Store, r: Rule, trusted: string -> bool, ev: Event): Option<Alert> {
    if !Applies(r, trusted, ev) then None
    else
      var (s, fired) := OneStep(before, r, ev);
      if fired.None? || s.hits == [] then None else Some(MakeAlert(r, ev, s.hits))
  }

  ghost function RaisedAlerts(before: Store, rs: seq<Rule>, trusted: string -> bool, ev: Event): seq<Alert> {
    if rs == [] then []
    else
      var raised := RaisedAlert(before, rs[|rs| - 1], trusted, ev);
      RaisedAlerts(before, rs[..|rs| - 1], trusted, ev) + (if raised.Some? then [raised.value] else [])
  }

  /** Rules do not disturb each other. */
  lemma OtherRuleSame(before: Store, after: Store, r: Rule, ev: Event, rule: string)
    requires before.Consistent() && after.Consistent() && Observed(before, after, r, ev) && rule != r.name
    ensures SameSlots(before, after, rule)
  {
    hide OneStep, SlotsOf, IsLive, HasRoom, TrackedAfter;
    forall key
      ensures after.Hits(Slot(rule, key)) == before.Hits(Slot(rule, key))
      ensures after.Last(Slot(rule, key)) == before.Last(Slot(rule, key))
    {
      assert Slot(rule, key).rule != r.name;
    }
  }

  lemma SameTwice(a: Store, b: Store, c: Store, rule: string)
    requires SameSlots(a, b, rule) && SameSlots(b, c, rule)
    ensures SameSlots(a, c, rule)
  {
    hide SlotsOf, Store.Hits, Store.Last;
  }

  lemma SameStep(a: Store, b: Store, r: Rule, ev: Event)
    requires SameSlots(a, b, r.name)
    ensures OneStep(a, r, ev) == OneStep(b, r, ev)
  {
    hide SlotsOf, SlotStep, Store.Hits, Store.Last;
  }

  lemma SameTracked(a: Store, b: Store, r: Rule, ev: Event)
    requires a.Consistent() && b.Consistent() && SameSlots(a, b, r.name)
    ensures TrackedAfter(a, r, ev) == TrackedAfter(b, r, ev)
  {
    hide LiveOf, IsLive, Newest;
    var slots := SlotsOf(a.hits.keys, r.name);
    SlotsOfMembers(a.hits.keys, r.name);
    hide SlotsOf;
    SameHits(a, b, r.name);
    LiveOfSame(slots, a.hits.vals, b.hits.vals, ev.ts - r.policy.window as real);
  }

  lemma SameRoom(a: Store, b: Store, r: Rule, ev: Event)
    requires a.Consistent() && b.Consistent() && SameSlots(a, b, r.name)
    ensures HasRoom(a, r, ev) <==> HasRoom(b, r, ev)
  {
    hide LiveOf, IsLive;
    var slots := SlotsOf(a.hits.keys, r.name);
    SlotsOfMembers(a.hits.keys, r.name);
    hide SlotsOf;
    SameHits(a, b, r.name);
    LiveOfSame(slots, a.hits.vals, b.hits.vals, ev.ts - r.policy.window as real);
  }

  lemma SameHits(a: Store, b: Store, rule: string)
    requires SameSlots(a, b, rule)
    ensures forall s: Slot | s.rule == rule :: s in a.hits.vals <==> s in b.hits.vals
    ensures forall s: Slot | s.rule == rule && s in a.hits.vals :: b.hits.vals[s] == a.hits.vals[s]
  {
    hide SlotsOf;
    forall s: Slot | s.rule == rule
      ensures s in a.hits.vals <==> s in b.hits.vals
      ensures s in a.hits.vals ==> b.hits.vals[s] == a.hits.vals[s]
    {
      assert s == Slot(rule, s.key) && b.Hits(Slot(rule, s.key)) == a.Hits(Slot(rule, s.key));
    }
  }

  /** Earlier rules of the event have left the rule's slots alone. */
  lemma ObservedIsStep(before: Store, mid: Store, after: Store, r: Rule, ev: Event)
    requires before.Consistent() && mid.Consistent() && after.Consistent()
    requires SameSlots(before, mid, r.name) && Observed(mid, after, r, ev)
    ensures Stepped(before, after, r, ev)
  {
    hide OneStep, SlotsOf, IsLive, HasRoom, TrackedAfter;
    SameStep(before, mid, r, ev);
    SameTracked(before, mid, r, ev);
    SameRoom(before, mid, r, ev);
    SameHits(before, mid, r.name);
    forall key | key != KeyOf(r, ev) ensures StaysOrForgotten(before, after, r, ev, key) {
      SameLive(before, mid, Slot(r.name, key), ev.ts - r.policy.window as real);
      var slot := Slot(r.name, key);
      assert mid.Last(slot) == before.Last(Slot(r.name, key));
    }
  }

  lemma SameLive(a: Store, b: Store, slot: Slot, since: real)
    requires SameSlots(a, b, slot.rule)
    ensures IsLive(a.hits.vals, slot, since) <==> IsLive(b.hits.vals, slot, since)
  {
    SameHits(a, b, slot.rule);
  }

  lemma FedThenSame(before: Store, mid: Store, after: Store, r: Rule, trusted: string -> bool, ev: Event)
    requires RuleFed(before, mid, r, trusted, ev) && SameSlots(mid, after, r.name)
    ensures RuleFed(before, after, r, trusted, ev)
  {
    hide Applies, OneStep, SlotsOf, IsLive, HasRoom, TrackedAfter;
    if Applies(r, trusted, ev) {
      SameHits(mid, after, r.name);
      forall key | key != KeyOf(r, ev) ensures StaysOrForgotten(before, after, r, ev, key) {
        var slot := Slot(r.name, key);
        assert StaysOrForgotten(before, mid, r, ev, key);
        assert after.Hits(slot) == mid.Hits(Slot(r.name, key));
      }
    } else {
      SameTwice(before, mid, after, r.name);
    }
  }

  /** Rules before `i` have seen the event, the slots of all others are as they were. */
  ghost predicate FedUpTo(before: Store, st: Store, rules: seq<Rule>, rs: seq<Rule>, i: nat, trusted: string -> bool,
                          ev: Event)
    requires i <= |rs|
  {
    && (forall r | r in rs[..i] :: RuleFed(before, st, r, trusted, ev))
    && (forall r | r in rules && r !in rs[..i] :: SameSlots(before, st, r.name))
  }

  lemma NothingFed(st: Store, rules: seq<Rule>, rs: seq<Rule>, trusted: string -> bool, ev: Event)
    ensures FedUpTo(st, st, rules, rs, 0, trusted, ev)
  {
    hide SlotsOf, Store.Hits, Store.Last;
  }

  lemma NamesDiffer(rules: seq<Rule>, a: Rule, b: Rule)
    requires DistinctNames(rules) && a in rules && b in rules && a != b
    ensures a.name != b.name
  {
    var i :| 0 <= i < |rules| && rules[i] == a;
    var j :| 0 <= j < |rules| && rules[j] == b;
    assert i != j;
  }

  lemma NextIsFed(before: Store, mid: Store, after: Store, rules: seq<Rule>, rs: seq<Rule>, i: nat,
                  trusted: string -> bool, ev: Event)
    requires i < |rs| && rs == RulesFor(rules, ev.service) && DistinctNames(rules)
    requires before.Consistent() && mid.Consistent() && after.Consistent()
    requires FedUpTo(before, mid, rules, rs, i, trusted, ev)
    requires if Applies(rs[i], trusted, ev) then Observed(mid, after, rs[i], ev) else after == mid
    ensures FedUpTo(before, after, rules, rs, i + 1, trusted, ev)
    ensures OneStep(before, rs[i], ev) == OneStep(mid, rs[i], ev)
  {
    hide Applies, OneStep, RuleFed, Observed, SameSlots, Store.Consistent, RulesFor, DistinctNames;
    RulesForService(rules, ev.service);
    Split(rs, i);
    NotYet(rs, i);
    SameStep(before, mid, rs[i], ev);
    forall r | r in rules && r != rs[i] ensures SameSlots(mid, after, r.name) {
      NamesDiffer(rules, r, rs[i]);
      OthersAfter(mid, after, rs[i], trusted, ev, r.name);
    }
    forall r | r in rs[..i] ensures RuleFed(before, after, r, trusted, ev) {
      FedThenSame(before, mid, after, r, trusted, ev);
    }
    RuleIsFed(before, mid, after, rs[i], trusted, ev);
    forall r | r in rules && r !in rs[..i + 1] ensures SameSlots(before, after, r.name) {
      SameTwice(before, mid, after, r.name);
    }
  }

  lemma OthersAfter(mid: Store, after: Store, r: Rule, trusted: string -> bool, ev: Event, rule: string)
    requires mid.Consistent() && after.Consistent() && rule != r.name
    requires if Applies(r, trusted, ev) then Observed(mid, after, r, ev) else after == mid
    ensures SameSlots(mid, after, rule)
  {
    hide Applies, Observed, Store.Consistent;
    if Applies(r, trusted, ev) {
      OtherRuleSame(mid, after, r, ev, rule);
    }
  }

  lemma RuleIsFed(before: Store, mid: Store, after: Store, r: Rule, trusted: string -> bool, ev: Event)
    requires before.Consistent() && mid.Consistent() && after.Consistent() && SameSlots(before, mid, r.name)
    requires if Applies(r, trusted, ev) then Observed(mid, after, r, ev) else after == mid
    ensures RuleFed(before, after, r, trusted, ev)
  {
    hide Applies, Observed, SameSlots, Stepped, Store.Consistent;
    if Applies(r, trusted, ev) {
      ObservedIsStep(before, mid, after, r, ev);
    }
  }

  lemma NotYet(rs: seq<Rule>, i: nat)
    requires i < |rs| && DistinctNames(rs)
    ensures rs[i] !in rs[..i]
  {
  }

  /** After the last rule of the service every rule has seen the event. */
  lemma AllFed(before: Store, after: Store, rules: seq<Rule>, rs: seq<Rule>, trusted: string -> bool, ev: Event)
    requires rs == RulesFor(rules, ev.service) && FedUpTo(before, after, rules, rs, |rs|, trusted, ev)
    ensures forall r | r in rules :: RuleFed(before, after, r, trusted, ev)
  {
    hide Stepped, SameSlots;
    RulesForService(rules, ev.service);
    assert rs[..|rs|] == rs;
    forall r | r in rules ensures RuleFed(before, after, r, trusted, ev) {
      assert r !in rs ==> !Applies(r, trusted, ev);
    }
  }

  /* ---- agreement with the history, slot by slot ---- */

  lemma FedKept(before: Store, after: Store, r: Rule, trusted: string -> bool, trace: seq<Event>, ev: Event,
                key: string)
    requires RuleFed(before, after, r, trusted, ev) && KeyKept(before, r, trusted, trace, key, ev.ts)
    ensures KeyKept(after, r, trusted, trace + [ev], key, ev.ts)
  {
    hide Applies, History, SlotsOf, SlotStep, IsLive, HasRoom, TrackedAfter, Newest, Ordered;
    HistoryNext(trace, ev, r, trusted, key);
    var slot, h := Slot(r.name, key), History(trace, r, trusted, key);
    if Applies(r, trusted, ev) {
      if key == KeyOf(r, ev) {
        StepKeeps(r.policy, h, before.Hits(slot), before.Last(slot), Hit(ev.ts, ev.raw));
      } else {
        assert StaysOrForgotten(before, after, r, ev, key);
        NothingKept(h, before.Hits(slot), before.Last(slot), ev.ts);
      }
    }
  }

  lemma NothingKept(h: seq<Hit>, hits: Option<seq<Hit>>, last: Option<real>, clock: real)
    requires Kept(h, hits, last, clock)
    ensures Kept(h, None, None, clock)
  {
  }

  /**
   * One event and one slot. The slot of the event agrees if it did; another slot that is still tracked agrees exactly
   * if it did; one that is not tracked, now or any longer, agrees exactly if its history does not matter at that time.
   */
  lemma FedAgrees(before: Store, after: Store, r: Rule, trusted: string -> bool, trace: seq<Event>, ev: Event,
                  key: string)
    requires RuleFed(before, after, r, trusted, ev) && KeyKept(before, r, trusted, trace, key, ev.ts)
    requires before.Consistent() && after.Consistent()
    ensures var h := History(trace + [ev], r, trusted, key);
            if Applies(r, trusted, ev) && key == KeyOf(r, ev)
            then Fits(r) && Agrees(before, r, trusted, trace, key, ev.ts) ==>
                   Agrees(after, r, trusted, trace + [ev], key, ev.ts)
            else Agrees(after, r, trusted, trace + [ev], key, ev.ts) <==>
                   if Slot(r.name, key) in after.hits.vals then Agrees(before, r, trusted, trace, key, ev.ts)
                   else !Matters(r.policy, h, ev.ts)
  {
    hide Applies, History, SlotsOf, SlotStep, IsLive, HasRoom, TrackedAfter, SlotAgrees, Kept, Matters;
    HistoryNext(trace, ev, r, trusted, key);
    var slot, h := Slot(r.name, key), History(trace, r, trusted, key);
    if Applies(r, trusted, ev) && key == KeyOf(r, ev) {
      if Fits(r) && Agrees(before, r, trusted, trace, key, ev.ts) {
        SlotStepAgrees(r.policy, h, before.Hits(slot), before.Last(slot), Hit(ev.ts, ev.raw));
      }
    } else {
      UntrackedAgreesIff(r.policy, h, ev.ts);
      assert Applies(r, trusted, ev) ==> StaysOrForgotten(before, after, r, ev, key);
    }
  }

  /** With room and a cooldown no longer than the window nothing that matters is forgotten. */
  lemma RoomForgetsNothing(before: Store, after: Store, r: Rule, trusted: string -> bool, trace: seq<Event>, ev: Event,
                           key: string)
    requires RuleFed(before, after, r, trusted, ev) && KeyKept(before, r, trusted, trace, key, ev.ts)
    requires before.Consistent() && after.Consistent()
    requires Applies(r, trusted, ev) ==> HasRoom(before, r, ev) && r.policy.cooldown <= r.policy.window
    requires Slot(r.name, key) in before.hits.vals && Slot(r.name, key) !in after.hits.vals
    ensures !Matters(r.policy, History(trace + [ev], r, trusted, key), ev.ts)
  {
    hide Applies, History, SlotsOf, SlotStep, HasRoom, TrackedAfter, Kept, Matters;
    HistoryNext(trace, ev, r, trusted, key);
    var slot, h := Slot(r.name, key), History(trace, r, trusted, key);
    if Applies(r, trusted, ev) {
      assert key != KeyOf(r, ev);
      assert StaysOrForgotten(before, after, r, ev, key);
      ExpiredMatters(r.policy, h, before.hits.vals[slot], before.Last(slot), ev.ts);
    } else {
      SameHits(before, after, r.name);
    }
  }

  /** The alert of a rule is the one owed by the plain count, if the slot of the event agrees with its history. */
  lemma RaisedIsOwed(before: Store, r: Rule, trusted: string -> bool, trace: seq<Event>, ev: Event)
    requires KeyKept(before, r, trusted, trace, KeyOf(r, ev), ev.ts)
    requires Fits(r) ==> Agrees(before, r, trusted, trace, KeyOf(r, ev), ev.ts)
    ensures RaisedAlert(before, r, trusted, ev) == OwedAlert(r, trusted, trace + [ev])
  {
    hide Applies, SlotAgrees, Kept, SlotStep, History, Since, Newest, Fires, Stored, Samples, Line;
    var slot, hit := Slot(r.name, KeyOf(r, ev)), Hit(ev.ts, ev.raw);
    var h := History(trace, r, trusted, slot.key);
    assert (trace + [ev])[|trace|] == ev;
    AppliesIsCounts(r, trusted, ev);
    hide CountsFor;
    if Applies(r, trusted, ev) {
      HistoryNext(trace, ev, r, trusted, slot.key);
      if Fits(r) {
        SlotStepAgrees(r.policy, h, before.Hits(slot), before.Last(slot), hit);
        SamplesAreLines(OneStep(before, r, ev).0.hits);
      } else {
        SilentStep(r.policy, h, before.Hits(slot), before.Last(slot), hit);
      }
    }
  }

  lemma SilentStep(p: Policy, h: seq<Hit>, hits: Option<seq<Hit>>, last: Option<real>, hit: Hit)
    requires Kept(h, hits, last, hit.ts) && p.threshold > MAX_WINDOW_EVENTS
    ensures SlotStep(p, SlotState(Stored(hits), last), hit).1.None?
  {
    hide Since, Push, Newest;
  }

  lemma {:induction false} RaisedAreOwed(before: Store, rs: seq<Rule>, trusted: string -> bool, trace: seq<Event>,
                                         ev: Event)
    requires forall r | r in rs :: RaisedAlert(before, r, trusted, ev) == OwedAlert(r, trusted, trace + [ev])
    ensures RaisedAlerts(before, rs, trusted, ev) == OwedAlerts(rs, trusted, trace + [ev])
  {
    if rs != [] {
      hide RaisedAlert, OwedAlert;
      RaisedAreOwed(before, rs[..|rs| - 1], trusted, trace, ev);
    }
  }

  lemma KeptLaterAll(st: Store, rules: seq<Rule>, trusted: string -> bool, trace: seq<Event>, clock: real, later: real)
    requires AllKept(st, rules, trusted, trace, clock) && clock <= later
    ensures AllKept(st, rules, trusted, trace, later)
  {
    hide History, Kept;
    forall r, key | r in rules ensures KeyKept(st, r, trusted, trace, key, later) {
      assert KeyKept(st, r, trusted, trace, key, clock);
      KeptLater(History(trace, r, trusted, key), st.Hits(Slot(r.name, key)), st.Last(Slot(r.name, key)), clock, later);
    }
  }

  /** What agrees now agrees later. */
  lemma AgreesLater(st: Store, r: Rule, trusted: string -> bool, trace: seq<Event>, key: string, clock: real,
                    later: real)
    requires KeyKept(st, r, trusted, trace, key, clock) && clock <= later
    ensures Agrees(st, r, trusted, trace, key, clock) ==> Agrees(st, r, trusted, trace, key, later)
  {
    hide History, Kept, SlotAgrees;
    if Agrees(st, r, trusted, trace, key, clock) {
      SlotAgreesLater(r.policy, History(trace, r, trusted, key), st.Hits(Slot(r.name, key)), st.Last(Slot(r.name, key)),
                      clock, later);
    }
  }

  /**
   * Whatever has been forgotten before, a slot agrees again once its key has been silent for longer than the window and
   * for the cooldown; a busier one as soon as its deque holds as many events as there are in the window (or as it can),
   * unless its alert memory differs and one of the two still silences it.
   */
  lemma AgreesAgain(st: Store, r: Rule, trusted: string -> bool, trace: seq<Event>, key: string, clock: real)
    requires KeyKept(st, r, trusted, trace, key, clock)
    ensures var h, p := History(trace, r, trusted, key), r.policy;
            var held, inWindow := |Stored(st.Hits(Slot(r.name, key)))|, |Since(h, clock - p.window as real)|;
            && (Silent(p, h, clock) ==> Agrees(st, r, trusted, trace, key, clock))
            && (Agrees(st, r, trusted, trace, key, clock)
                <==> held >= (if inWindow < MAX_WINDOW_EVENTS then inWindow else MAX_WINDOW_EVENTS)
                     && LastAgrees(p, h, st.Last(Slot(r.name, key)), clock))
  {
    hide History, Kept, SlotAgrees, LastAgrees, Since, Stored;
    var h, slot := History(trace, r, trusted, key), Slot(r.name, key);
    SlotAgreesIff(r.policy, h, st.Hits(slot), st.Last(slot), clock);
    if Silent(r.policy, h, clock) {
      SilentAgrees(r.policy, h, st.Hits(slot), st.Last(slot), clock);
    }
  }

  lemma Split(rs: seq<Rule>, i: nat)
    requires i < |rs|
    ensures forall r :: r in rs[..i + 1] <==> r in rs[..i] || r == rs[i]
  {
    assert rs[..i + 1] == rs[..i] + [rs[i]];
  }

  /** The slot of `ev` exists, with what it held before or empty; other slots stay or are forgotten when expired. */
  ghost predicate Prepared(before: Store, after: Store, r: Rule, ev: Event) {
    var slot := Slot(r.name, KeyOf(r, ev));
    && after.Hits(slot) == Some(Stored(before.Hits(slot)))
    && after.Last(slot) == before.Last(slot)
    && SlotsOf(after.hits.keys, r.name) == TrackedAfter(before, r, ev)
    && OthersKept(before, after, r, ev)
  }

  ghost predicate OthersKept(before: Store, after: Store, r: Rule, ev: Event) {
    var slot := Slot(r.name, KeyOf(r, ev));
    && (forall s | s in after.hits.vals && s != slot ::
         s in before.hits.vals && after.hits.vals[s] == before.hits.vals[s] && after.Last(s) == before.Last(s))
    && (forall s | s in before.hits.vals && s.rule != r.name :: s in after.hits.vals)
    && (forall other | other != r.name :: SlotsOf(after.hits.keys, other) == SlotsOf(before.hits.keys, other))
    && (forall s | s in before.hits.vals && s !in after.hits.vals && HasRoom(before, r, ev) ::
         !IsLive(before.hits.vals, s, ev.ts - r.policy.window as real))
  }

  lemma ShrunkKeepsBounds(before: Store, after: Store, rule: string, clock: real)
    requires before.Consistent() && before.Bounded() && before.Timely(clock)
    requires Shrunk(before, after, rule) && after.Count(rule) <= before.Count(rule)
    ensures after.Bounded() && after.Timely(clock)
  {
    hide SlotsOf, EndsBy;
    forall other ensures after.Count(other) <= MAX_KEYS_PER_RULE {
      assert other != rule ==> after.Count(other) == before.Count(other);
    }
  }

  /** With room, an eviction forgets only expired slots. */
  lemma EvictionForgetsExpired(before: Store, after: Store, r: Rule, ev: Event)
    requires before.Consistent() && Shrunk(before, after, r.name)
    requires Slot(r.name, KeyOf(r, ev)) !in before.hits.vals
    requires before.Count(r.name) < MAX_KEYS_PER_RULE ==> after == before
    requires before.Count(r.name) >= MAX_KEYS_PER_RULE ==>
               SlotsOf(after.hits.keys, r.name) ==
               Newest(LiveOf(SlotsOf(before.hits.keys, r.name), before.hits.vals, ev.ts - r.policy.window as real),
                      MAX_KEYS_PER_RULE - 1)
    ensures OthersKept(before, after, r, ev)
    ensures SlotsOf(after.hits.keys, r.name) + [Slot(r.name, KeyOf(r, ev))] == TrackedAfter(before, r, ev)
  {
    var since := ev.ts - r.policy.window as real;
    var slots := SlotsOf(before.hits.keys, r.name);
    SlotsOfMembers(before.hits.keys, r.name);
    SlotsOfMembers(after.hits.keys, r.name);
    LiveOfMembers(slots, before.hits.vals, since);
    hide SlotsOf, LiveOf, IsLive, NoDuplicates;
  }

  lemma NewSlotPrepared(before: Store, mid: Store, after: Store, r: Rule, ev: Event)
    requires before.Consistent() && mid.Consistent() && after.Consistent()
    requires var slot := Slot(r.name, KeyOf(r, ev));
             && slot !in before.hits.vals && slot !in mid.hits.vals
             && OthersKept(before, mid, r, ev)
             && SlotsOf(mid.hits.keys, r.name) + [slot] == TrackedAfter(before, r, ev)
             && after.hits == mid.hits.Put(slot, []) && after.lastAlert == mid.lastAlert
    requires forall other | other != r.name :: SlotsOf(after.hits.keys, other) == SlotsOf(mid.hits.keys, other)
    ensures Prepared(before, after, r, ev)
  {
    hide SlotsOf, HasRoom, IsLive, TrackedAfter;
    SlotsOfAppend(mid.hits.keys, Slot(r.name, KeyOf(r, ev)), r.name);
  }

  lemma NewSlotCounted(st: Store, slot: Slot)
    requires st.Consistent() && slot !in st.hits.vals
    ensures st.WithSlot(slot).Consistent()
    ensures forall rule | rule != slot.rule :: SlotsOf(st.WithSlot(slot).hits.keys, rule) == SlotsOf(st.hits.keys, rule)
  {
    hide SlotsOf;
    forall rule
      ensures SlotsOf(st.hits.keys + [slot], rule)
              == SlotsOf(st.hits.keys, rule) + if slot.rule == rule then [slot] else []
    {
      SlotsOfAppend(st.hits.keys, slot, rule);
    }
  }

  lemma NewSlotBounds(mid: Store, after: Store, slot: Slot, clock: real)
    requires mid.Bounded() && mid.Timely(clock) && mid.Count(slot.rule) < MAX_KEYS_PER_RULE
    requires after.hits == mid.hits.Put(slot, [])
    requires after.Count(slot.rule) == mid.Count(slot.rule) + 1
    requires forall rule | rule != slot.rule :: after.Count(rule) == mid.Count(rule)
    ensures after.Bounded() && after.Timely(clock)
  {
    assert EndsBy([], clock);
    hide EndsBy;
    forall rule ensures after.Count(rule) <= MAX_KEYS_PER_RULE {
      assert mid.Count(rule) <= MAX_KEYS_PER_RULE;
    }
  }

  lemma TrackedPrepared(st: Store, r: Rule, ev: Event)
    requires Slot(r.name, KeyOf(r, ev)) in st.hits.vals
    ensures Prepared(st, st, r, ev)
  {
  }

  /** Appending the newest event and expiring old ones keeps a deque in time order and within its bound. */
  lemma PushKeepsOrder(q: seq<Hit>, hit: Hit, since: real)
    requires EndsBy(q, hit.ts) && |q| <= MAX_WINDOW_EVENTS && since <= hit.ts
    ensures var p := Push(q, hit, MAX_WINDOW_EVENTS);
            && Ordered(p)
            && EndsBy(Since(p, since), hit.ts) && |Since(p, since)| <= MAX_WINDOW_EVENTS && Since(p, since) != []
  {
    var p := Push(q, hit, MAX_WINDOW_EVENTS);
    var n := |p| - 1;
    assert p[n] == hit;
    SinceOrdered(p, since);
  }

  /** Writing the one slot of the observed event into a prepared store. */
  lemma SlotWritten(before: Store, mid: Store, after: Store, r: Rule, ev: Event, q: seq<Hit>)
    requires mid.Consistent() && Prepared(before, mid, r, ev)
    requires var slot := Slot(r.name, KeyOf(r, ev));
             && after.hits == mid.hits.Put(slot, q) && after.keysPerRule == mid.keysPerRule
             && q == OneStep(before, r, ev).0.hits
             && after.lastAlert == if OneStep(before, r, ev).1.Some? then mid.lastAlert[slot := ev.ts]
                                   else mid.lastAlert
    ensures after.Consistent() && Observed(before, after, r, ev)
  {
    hide SlotsOf, OthersKept, OneStep, Stored, TrackedAfter, Store.Consistent;
    var slot := Slot(r.name, KeyOf(r, ev));
    SlotStepLast(before, r, ev);
    RewrittenConsistent(mid, after, slot, q);
    RewrittenOthers(before, mid, after, r, ev, q);
  }

  lemma SlotStepLast(before: Store, r: Rule, ev: Event)
    ensures OneStep(before, r, ev).0.last
         == if OneStep(before, r, ev).1.Some? then Some(ev.ts) else before.Last(Slot(r.name, KeyOf(r, ev)))
  {
    hide Since, Push, Stored, Quiet;
  }

  lemma RewrittenConsistent(mid: Store, after: Store, slot: Slot, q: seq<Hit>)
    requires mid.Consistent() && slot in mid.hits.vals
    requires after.hits == mid.hits.Put(slot, q) && after.keysPerRule == mid.keysPerRule
    requires forall s | s in after.lastAlert :: s in mid.lastAlert || s == slot
    ensures after.Consistent()
  {
    hide SlotsOf;
  }

  lemma RewrittenOthers(before: Store, mid: Store, after: Store, r: Rule, ev: Event, q: seq<Hit>)
    requires OthersKept(before, mid, r, ev)
    requires var slot := Slot(r.name, KeyOf(r, ev));
             && slot in mid.hits.vals && after.hits == mid.hits.Put(slot, q)
             && forall s | s != slot :: after.Last(s) == mid.Last(s)
    ensures OthersKept(before, after, r, ev)
  {
    hide SlotsOf, HasRoom, IsLive;
  }

  lemma SlotWrittenBounds(mid: Store, after: Store, slot: Slot, q: seq<Hit>, clock: real)
    requires mid.Bounded() && mid.Timely(clock) && EndsBy(q, clock) && |q| <= MAX_WINDOW_EVENTS
    requires after.hits == mid.hits.Put(slot, q) && after.keysPerRule == mid.keysPerRule
    ensures after.Bounded() && after.Timely(clock)
  {
    hide EndsBy;
    forall rule ensures after.Count(rule) <= MAX_KEYS_PER_RULE {
      assert mid.Count(rule) <= MAX_KEYS_PER_RULE;
    }
  }

  lemma PreparedSlot(before: Store, mid: Store, r: Rule, ev: Event)
    requires Prepared(before, mid, r, ev)
    ensures var slot := Slot(r.name, KeyOf(r, ev));
            && slot in mid.hits.vals && mid.hits.vals[slot] == Stored(before.Hits(slot))
            && mid.Last(slot) == before.Last(slot)
  {
  }

  lemma BoundedSlot(st: Store, slot: Slot, clock: real)
    requires st.Bounded() && st.Timely(clock) && slot in st.hits.vals
    ensures |st.hits.vals[slot]| <= MAX_WINDOW_EVENTS && EndsBy(st.hits.vals[slot], clock)
  {
  }

  lemma EmptyStoreAgrees(rules: seq<Rule>, trusted: string -> bool, clock: real)
    ensures var st := Store(Empty(), map[], map[]);
            && st.Consistent() && st.Bounded() && st.Timely(clock)
            && AllKept(st, rules, trusted, [], clock) && AllAgree(st, rules, trusted, [], clock)
  {
    hide SlotAgrees, Kept;
    var st := Store(Empty(), map[], map[]);
    forall r, key
      ensures KeyKept(st, r, trusted, [], key, clock) && Agrees(st, r, trusted, [], key, clock)
    {
      NewSlotAgrees(r.policy, clock);
    }
  }

  lemma RaisedNext(before: Store, rs: seq<Rule>, i: nat, trusted: string -> bool, ev: Event)
    requires i < |rs|
    ensures RaisedAlerts(before, rs[..i + 1], trusted, ev) == RaisedAlerts(before, rs[..i], trusted, ev)
            + (var raised := RaisedAlert(before, rs[i], trusted, ev);
               if raised.Some? then [raised.value] else [])
  {
    hide RaisedAlert;
    assert rs[..i + 1][..i] == rs[..i];
  }

  lemma NothingRaised(before: Store, rs: seq<Rule>, trusted: string -> bool, ev: Event)
    ensures RaisedAlerts(before, rs[..0], trusted, ev) == []
  {
  }

  lemma AppliesMeans(r: Rule, trusted: string -> bool, ev: Event)
    ensures Applies(r, trusted, ev) <==>
            !(ev.service != r.service || !r.conditions(ev) || (r.untrustedOnly && trusted(ev.ip)) || KeyOf(r, ev) == "")
  {
  }

  lemma AllRaisedAreOwed(before: Store, rules: seq<Rule>, rs: seq<Rule>, trusted: string -> bool, trace: seq<Event>,
                         ev: Event)
    requires AllKept(before, rules, trusted, trace, ev.ts) && rs == RulesFor(rules, ev.service)
    ensures forall r | r in rules && (Fits(r) ==> Agrees(before, r, trusted, trace, KeyOf(r, ev), ev.ts)) ::
              RaisedAlert(before, r, trusted, ev) == OwedAlert(r, trusted, trace + [ev])
    ensures AllAgree(before, rules, trusted, trace, ev.ts) ==>
              RaisedAlerts(before, rs, trusted, ev) == OwedAlerts(rs, trusted, trace + [ev])
  {
    hide KeyKept, Agrees, RaisedAlert, OwedAlert;
    forall r | r in rules && (Fits(r) ==> Agrees(before, r, trusted, trace, KeyOf(r, ev), ev.ts))
      ensures RaisedAlert(before, r, trusted, ev) == OwedAlert(r, trusted, trace + [ev])
    {
      RaisedIsOwed(before, r, trusted, trace, ev);
    }
    RulesForService(rules, ev.service);
    if AllAgree(before, rules, trusted, trace, ev.ts) {
      RaisedAreOwed(before, rs, trusted, trace, ev);
    }
  }

  /** What every alert raised for the event names, and what it counts if the slot of the event agrees. */
  ghost predicate RaisedTell(before: Store, rules: seq<Rule>, trusted: string -> bool, trace: seq<Event>, ev: Event) {
    forall r | r in rules && RaisedAlert(before, r, trusted, ev).Some? ::
      var a, key := RaisedAlert(before, r, trusted, ev).value, if r.byIp then ev.ip else ev.user;
      && CountsFor(ev, r, trusted, key) && a.rule == r.name && a.key == key && a.ip == ev.ip && a.lastTs == ev.ts
      && (Agrees(before, r, trusted, trace, key, ev.ts) ==> Tells(a, r, trusted, trace + [ev]))
  }

  lemma AllRaisedTell(before: Store, rules: seq<Rule>, trusted: string -> bool, trace: seq<Event>, ev: Event)
    requires AllKept(before, rules, trusted, trace, ev.ts)
    ensures RaisedTell(before, rules, trusted, trace, ev)
  {
    hide KeyKept, Agrees, OwedAlert, OneStep, Tells, Samples;
    forall r | r in rules && RaisedAlert(before, r, trusted, ev).Some?
      ensures var a, key := RaisedAlert(before, r, trusted, ev).value, if r.byIp then ev.ip else ev.user;
              && CountsFor(ev, r, trusted, key)
              && a.rule == r.name && a.key == key && a.ip == ev.ip && a.lastTs == ev.ts
              && (Agrees(before, r, trusted, trace, key, ev.ts) ==> Tells(a, r, trusted, trace + [ev]))
    {
      AppliesIsCounts(r, trusted, ev);
      if Agrees(before, r, trusted, trace, KeyOf(r, ev), ev.ts) {
        RaisedIsOwed(before, r, trusted, trace, ev);
        OwedTells(r, trusted, trace + [ev]);
      }
    }
  }

  lemma StartEvent(st: Store, rules: seq<Rule>, trusted: string -> bool, trace: seq<Event>, clock: real, ev: Event)
    requires st.Timely(clock) && AllKept(st, rules, trusted, trace, clock)
    requires clock <= ev.ts || (trace == [] && st == Store(Empty(), map[], map[]))
    ensures st.Timely(ev.ts) && AllKept(st, rules, trusted, trace, ev.ts)
  {
    hide KeyKept;
    if clock > ev.ts {
      EmptyStoreAgrees(rules, trusted, ev.ts);
    } else {
      KeptLaterAll(st, rules, trusted, trace, clock, ev.ts);
    }
  }

  lemma FinishEvent(before: Store, after: Store, rules: seq<Rule>, trusted: string -> bool, trace: seq<Event>,
                    ev: Event)
    requires forall r | r in rules :: RuleFed(before, after, r, trusted, ev)
    requires AllKept(before, rules, trusted, trace, ev.ts)
    ensures AllKept(after, rules, trusted, trace + [ev], ev.ts)
  {
    hide RuleFed, KeyKept;
    forall r, key | r in rules ensures KeyKept(after, r, trusted, trace + [ev], key, ev.ts) {
      FedKept(before, after, r, trusted, trace, ev, key);
    }
  }

  /** An event, and the agreement of every rule and key. */
  ghost predicate AgreementKept(before: Store, after: Store, rules: seq<Rule>, trusted: string -> bool,
                                trace: seq<Event>, ev: Event) {
    forall r, key | r in rules && Fits(r) && Agrees(before, r, trusted, trace, key, ev.ts) ::
      Agrees(after, r, trusted, trace + [ev], key, ev.ts)
      <==> Slot(r.name, key) in after.hits.vals || !Matters(r.policy, History(trace + [ev], r, trusted, key), ev.ts)
  }

  lemma AllAgreementKept(before: Store, after: Store, rules: seq<Rule>, trusted: string -> bool, trace: seq<Event>,
                         ev: Event)
    requires forall r | r in rules :: RuleFed(before, after, r, trusted, ev)
    requires AllKept(before, rules, trusted, trace, ev.ts) && before.Consistent() && after.Consistent()
    ensures AgreementKept(before, after, rules, trusted, trace, ev)
  {
    hide RuleFed, KeyKept, Agrees, History, Applies, Matters, Store.Consistent;
    forall r, key | r in rules && Fits(r) && Agrees(before, r, trusted, trace, key, ev.ts)
      ensures Agrees(after, r, trusted, trace + [ev], key, ev.ts) <==>
              Slot(r.name, key) in after.hits.vals || !Matters(r.policy, History(trace + [ev], r, trusted, key), ev.ts)
    {
      FedAgrees(before, after, r, trusted, trace, ev, key);
      if Applies(r, trusted, ev) && key == KeyOf(r, ev) {
        OwnIsTracked(before, after, r, trusted, ev);
      }
    }
  }

  lemma OwnIsTracked(before: Store, after: Store, r: Rule, trusted: string -> bool, ev: Event)
    requires RuleFed(before, after, r, trusted, ev) && Applies(r, trusted, ev)
    ensures Slot(r.name, KeyOf(r, ev)) in after.hits.vals
  {
    hide Applies, OneStep, StaysOrForgotten;
  }

  /** Having room, and cooldowns within the windows, keeps everything in agreement. */
  lemma RoomKeepsAgreement(before: Store, after: Store, rules: seq<Rule>, trusted: string -> bool, trace: seq<Event>,
                           ev: Event)
    requires forall r | r in rules :: RuleFed(before, after, r, trusted, ev)
    requires AllKept(before, rules, trusted, trace, ev.ts) && before.Consistent() && after.Consistent()
    requires AllAgree(before, rules, trusted, trace, ev.ts) && AllHaveRoom(before, rules, trusted, ev)
    ensures AllAgree(after, rules, trusted, trace + [ev], ev.ts)
  {
    hide RuleFed, KeyKept, Agrees, History, Applies, Matters, HasRoom, Store.Consistent;
    AllAgreementKept(before, after, rules, trusted, trace, ev);
    forall r, key | r in rules && Fits(r) ensures Agrees(after, r, trusted, trace + [ev], key, ev.ts) {
      var slot := Slot(r.name, key);
      if slot !in after.hits.vals {
        if slot in before.hits.vals {
          RoomForgetsNothing(before, after, r, trusted, trace, ev, key);
        } else {
          StillUntracked(before, after, r, trusted, trace, ev, key);
        }
      }
    }
  }

  lemma StillUntracked(before: Store, after: Store, r: Rule, trusted: string -> bool, trace: seq<Event>, ev: Event,
                       key: string)
    requires RuleFed(before, after, r, trusted, ev) && before.Consistent()
    requires Agrees(before, r, trusted, trace, key, ev.ts)
    requires Slot(r.name, key) !in before.hits.vals && Slot(r.name, key) !in after.hits.vals
    ensures !Matters(r.policy, History(trace + [ev], r, trusted, key), ev.ts)
  {
    hide Applies, SlotsOf, SlotAgrees, Matters, History, StaysOrForgotten;
    HistoryNext(trace, ev, r, trusted, key);
    UntrackedAgreesIff(r.policy, History(trace, r, trusted, key), ev.ts);
  }

  lemma NothingShrunk(st: Store, rule: string)
    requires st.Consistent()
    ensures Shrunk(st, st, rule)
  {
  }

  lemma ShrunkMeans(before: Store, after: Store, rule: string)
    requires Shrunk(before, after, rule)
    ensures after.Consistent() && forall s | s in after.hits.vals :: s in before.hits.vals
  {
  }

  lemma ConsistentSlots(st: Store, rule: string)
    requires st.Consistent()
    ensures NoDuplicates(SlotsOf(st.hits.keys, rule))
    ensures forall s | s in SlotsOf(st.hits.keys, rule) :: s.rule == rule
    ensures st.Count(rule) == |SlotsOf(st.hits.keys, rule)|
  {
    SlotsOfMembers(st.hits.keys, rule);
  }

  lemma SameLiveness(vals: map<Slot, seq<Hit>>, was: map<Slot, seq<Hit>>, s: Slot, since: real)
    requires s in vals && s in was && vals[s] == was[s]
    ensures IsLive(vals, s, since) <==> IsLive(was, s, since)
  {
  }

  /** A slot of the rule is tracked exactly when it is among the rule's slots. */
  lemma TrackedIff(st: Store, rule: string, s: Slot)
    requires st.Consistent() && s.rule == rule
    ensures s in st.hits.vals <==> s in SlotsOf(st.hits.keys, rule)
  {
    SlotsOfMembers(st.hits.keys, rule);
  }

  /** A slot that survived still has its hits. */
  lemma TrackedSlot(before: Store, after: Store, rule: string, s: Slot)
    requires Shrunk(before, after, rule) && s in SlotsOf(after.hits.keys, rule)
    ensures after.Consistent() && s.rule == rule
    ensures s in after.hits.vals && s in before.hits.vals && after.hits.vals[s] == before.hits.vals[s]
  {
    SlotsOfMembers(after.hits.keys, rule);
  }

  class LogRuleEngine {
    const rules: seq<Rule>
    const trusted: string -> bool
    var hits: Dict<Slot, seq<Hit>>
    var lastAlert: map<Slot, real>
    var keysPerRule: map<string, nat>
    /** Every event ever fed. */
    ghost var trace: seq<Event>

    ghost function State(): Store
      reads this
    {
      Store(hits, lastAlert, keysPerRule)
    }

    ghost function Clock(): real
      reads this
    {
      if trace == [] then 0.0 else trace[|trace| - 1].ts
    }

    ghost predicate Valid()
      reads this
    {
      && DistinctNames(rules)
      && State().Consistent() && State().Bounded()
      && (trace == [] ==> State() == Store(Empty(), map[], map[]))
      && State().Timely(Clock())
      && AllKept(State(), rules, trusted, trace, Clock())
    }

    constructor (rules: seq<Rule>, trusted: string -> bool)
      requires DistinctNames(rules)
      ensures Valid() && trace == [] && this.rules == rules && this.trusted == trusted
      ensures AllAgree(State(), rules, trusted, trace, Clock())
    {
      this.rules, this.trusted := rules, trusted;
      hits, lastAlert, keysPerRule := Empty(), map[], map[];
      trace := [];
      EmptyStoreAgrees(rules, trusted, 0.0);
    }

    /** `_drop` */
    method Drop(slot: Slot)
      requires State().Consistent() && slot in hits.vals
      modifies this`hits, this`lastAlert, this`keysPerRule
      ensures Shrunk(old(State()), State(), slot.rule)
      ensures hits == old(hits).Remove(slot)
      ensures State().Count(slot.rule) == old(State()).Count(slot.rule) - 1
    {
      ghost var keys := hits.keys;
      SlotsOfMembers(keys, slot.rule);
      WithoutProperties(SlotsOf(keys, slot.rule), slot);
      forall rule | rule != slot.rule ensures SlotsOf(Without(keys, slot), rule) == SlotsOf(keys, rule) {
        SlotsOfWithout(keys, slot, rule);
        SlotsOfMembers(keys, rule);
        WithoutProperties(SlotsOf(keys, rule), slot);
      }
      SlotsOfWithout(keys, slot, slot.rule);
      hits := hits.Remove(slot);
      lastAlert := lastAlert - {slot};
      var n := (if slot.rule in keysPerRule then keysPerRule[slot.rule] else 1) - 1;
      keysPerRule := keysPerRule[slot.rule := if n < 0 then 0 else n];
    }

    /** `if not hits or hits[-1][0] < now - window: self._drop(slot)` */
    method DropIfExpired(slot: Slot, since: real) returns (dropped: bool)
      requires State().Consistent() && slot in hits.vals
      modifies this`hits, this`lastAlert, this`keysPerRule
      ensures dropped == !IsLive(old(hits.vals), slot, since)
      ensures !dropped ==> State() == old(State())
      ensures dropped ==> Shrunk(old(State()), State(), slot.rule) && hits.keys == Without(old(hits.keys), slot)
    {
      hide Shrunk, SlotsOf, Without, NoDuplicates, Store.Consistent;
      dropped := hits.vals[slot] == [] || hits.vals[slot][|hits.vals[slot]| - 1].ts < since;
      if dropped {
        Drop(slot);
      }
    }

    /** First pass of the eviction: forget the slots of `rule` without an event since `since`. */
    method DropExpired(rule: string, slots: seq<Slot>, since: real)
      requires State().Consistent() && slots == SlotsOf(hits.keys, rule)
      modifies this`hits, this`lastAlert, this`keysPerRule
      ensures Shrunk(old(State()), State(), rule)
      ensures SlotsOf(hits.keys, rule) == LiveOf(slots, old(hits.vals), since)
    {
      hide Shrunk, SlotsOf, LiveOf, Without, NoDuplicates, IsLive, Store.Consistent, AfterFirst;
      ghost var before, vals := State(), hits.vals;
      ConsistentSlots(before, rule);
      NothingShrunk(before, rule);
      AfterFirstEnds(slots, vals, since);
      for i := 0 to |slots|
        invariant Shrunk(before, State(), rule)
        invariant SlotsOf(hits.keys, rule) == AfterFirst(slots, i, vals, since)
      {
        ghost var mid := State();
        ExpireStep(slots, i, vals, since);
        TrackedSlot(before, mid, rule, slots[i]);
        SameLiveness(mid.hits.vals, vals, slots[i], since);
        SlotsOfWithout(hits.keys, slots[i], rule);
        var dropped := DropIfExpired(slots[i], since);
        if dropped {
          ShrunkTwice(before, mid, State(), rule);
        }
      }
    }

    /** Second pass: forget the oldest remaining slots until there is room for one more. */
    method DropOldest(rule: string, slots: seq<Slot>, ghost vals: map<Slot, seq<Hit>>, ghost since: real)
      requires State().Consistent() && NoDuplicates(slots)
      requires forall s | s in slots :: s.rule == rule
      requires SlotsOf(hits.keys, rule) == LiveOf(slots, vals, since)
      modifies this`hits, this`lastAlert, this`keysPerRule
      ensures Shrunk(old(State()), State(), rule)
      ensures SlotsOf(hits.keys, rule) == Newest(LiveOf(slots, vals, since), MAX_KEYS_PER_RULE - 1)
    {
      hide Shrunk, SlotsOf, LiveOf, Without, NoDuplicates, IsLive, Store.Consistent, RestOf, Newest;
      ghost var before, live, k := State(), LiveOf(slots, vals, since), 0;
      var i := 0;
      NothingShrunk(before, rule);
      RestOfEnds(slots, vals, since);
      while i < |slots|
        invariant i <= |slots| && k <= |live|
        invariant Shrunk(before, State(), rule)
        invariant SlotsOf(hits.keys, rule) == RestOf(slots, i, vals, since) == live[k..]
        invariant k == 0 || |live| - k >= MAX_KEYS_PER_RULE - 1
      {
        ghost var mid := State();
        ShrunkMeans(before, mid, rule);
        ConsistentSlots(mid, rule);
        if (if rule in keysPerRule then keysPerRule[rule] else 0) < MAX_KEYS_PER_RULE {
          break;
        }
        OldestStep(slots, i, vals, since, live, k);
        TrackedIff(mid, rule, slots[i]);
        if slots[i] in hits.vals {
          SlotsOfWithout(hits.keys, slots[i], rule);
          k := k + 1;
          Drop(slots[i]);
          ShrunkTwice(before, mid, State(), rule);
        }
        i := i + 1;
      }
      ShrunkMeans(before, State(), rule);
      ConsistentSlots(State(), rule);
      NewestIsRest(live, k, MAX_KEYS_PER_RULE - 1);
    }

    /** `_evict_if_full` */
    method EvictIfFull(rule: string, now: real, window: nat)
      requires State().Consistent()
      modifies this`hits, this`lastAlert, this`keysPerRule
      ensures State().Consistent() && Shrunk(old(State()), State(), rule)
      ensures forall s | s in hits.vals :: s in old(hits.vals)
      ensures State().Count(rule) < MAX_KEYS_PER_RULE && State().Count(rule) <= old(State()).Count(rule)
      ensures old(State()).Count(rule) < MAX_KEYS_PER_RULE ==> State() == old(State())
      ensures old(State()).Count(rule) >= MAX_KEYS_PER_RULE ==>
                SlotsOf(hits.keys, rule) ==
                Newest(LiveOf(SlotsOf(old(hits.keys), rule), old(hits.vals), now - window as real),
                       MAX_KEYS_PER_RULE - 1)
    {
      hide Shrunk, Store.Consistent, SlotsOf, LiveOf, Newest, NoDuplicates;
      ghost var before := State();
      NothingShrunk(before, rule);
      if (if rule in keysPerRule then keysPerRule[rule] else 0) < MAX_KEYS_PER_RULE {
        return;
      }
      var slots := SlotsOf(hits.keys, rule);
      ConsistentSlots(before, rule);
      DropExpired(rule, slots, now - window as real);
      ghost var mid := State();
      ShrunkMeans(before, mid, rule);
      DropOldest(rule, slots, before.hits.vals, now - window as real);
      ShrunkTwice(before, mid, State(), rule);
      ShrunkMeans(before, State(), rule);
      ConsistentSlots(State(), rule);
    }

    method NewSlot(slot: Slot)
      requires State().Consistent() && slot !in hits.vals
      modifies this`hits, this`keysPerRule
      ensures State().Consistent()
      ensures hits == old(hits).Put(slot, [])
      ensures State().Count(slot.rule) == old(State()).Count(slot.rule) + 1
      ensures forall rule | rule != slot.rule :: State().Count(rule) == old(State()).Count(rule)
      ensures forall rule | rule != slot.rule :: SlotsOf(hits.keys, rule) == SlotsOf(old(hits.keys), rule)
    {
      hide SlotsOf, Store.Consistent;
      NewSlotCounted(State(), slot);
      hits := hits.Put(slot, []);
      keysPerRule := keysPerRule[slot.rule := (if slot.rule in keysPerRule then keysPerRule[slot.rule] else 0) + 1];
    }

    /** The first part of `_observe`: find the slot, or make room for it and start it empty. */
    method PrepareSlot(r: Rule, slot: Slot, ev: Event)
      requires State().Consistent() && State().Bounded() && State().Timely(ev.ts)
      requires slot == Slot(r.name, KeyOf(r, ev))
      modifies this`hits, this`lastAlert, this`keysPerRule
      ensures State().Consistent() && State().Bounded() && State().Timely(ev.ts)
      ensures Prepared(old(State()), State(), r, ev)
    {
      hide Shrunk, SlotsOf, LiveOf, Newest, OthersKept, Prepared, Store.Bounded, Store.Timely, Store.Consistent;
      ghost var before := State();
      if slot in hits.vals {
        TrackedPrepared(before, r, ev);
      } else {
        EvictIfFull(r.name, ev.ts, r.policy.window);
        ghost var mid := State();
        ShrunkKeepsBounds(before, mid, r.name, ev.ts);
        EvictionForgetsExpired(before, mid, r, ev);
        NewSlot(slot);
        NewSlotPrepared(before, mid, State(), r, ev);
        NewSlotBounds(mid, State(), slot, ev.ts);
      }
    }

    /** `_observe` */
    method Observe(r: Rule, key: string, ev: Event) returns (alert: Option<Alert>)
      requires State().Consistent() && State().Bounded() && State().Timely(ev.ts) && key == KeyOf(r, ev)
      modifies this`hits, this`lastAlert, this`keysPerRule
      ensures State().Consistent() && State().Bounded() && State().Timely(ev.ts)
      ensures Observed(old(State()), State(), r, ev)
      ensures OneStep(old(State()), r, ev).0.hits != []
      ensures alert == if OneStep(old(State()), r, ev).1.Some?
                       then Some(MakeAlert(r, ev, OneStep(old(State()), r, ev).0.hits))
                       else None
      ensures alert.Some? ==> r.policy.threshold <= MAX_WINDOW_EVENTS
    {
      hide Prepared, Observed, EndsBy, Push, Since, Ordered, SlotsOf, Store.Bounded, Store.Timely, Store.Consistent;
      var slot := Slot(r.name, key);
      ghost var before := State();
      PrepareSlot(r, slot, ev);
      ghost var mid := State();
      PreparedSlot(before, mid, r, ev);
      BoundedSlot(mid, slot, ev.ts);
      var since := ev.ts - r.policy.window as real;
      PushKeepsOrder(hits.vals[slot], Hit(ev.ts, ev.raw), since);
      var q := Push(hits.vals[slot], Hit(ev.ts, ev.raw), MAX_WINDOW_EVENTS);
      q := PopExpired(q, since);
      assert q == OneStep(before, r, ev).0.hits;
      hits := hits.Put(slot, q);
      if |q| >= r.policy.threshold && (slot !in lastAlert || ev.ts - lastAlert[slot] >= r.policy.cooldown as real) {
        lastAlert := lastAlert[slot := ev.ts];
        alert := Some(MakeAlert(r, ev, q));
      } else {
        alert := None;
      }
      SlotWritten(before, mid, State(), r, ev, q);
      SlotWrittenBounds(mid, State(), slot, q, ev.ts);
    }

    /**
     * `feed`, with events in time order. Each rule of the service takes one step on its slot, and its alert is the one
     * a plain count over the full history owes if that slot agrees with the history. A slot that agrees goes on
     * agreeing exactly if it is still tracked or its history does not matter; with room for the event all of them do.
     */
    method Feed(ev: Event) returns (alerts: seq<Alert>)
      requires Valid() && (trace != [] ==> trace[|trace| - 1].ts <= ev.ts)
      modifies this
      ensures Valid() && trace == old(trace) + [ev]
      ensures alerts == RaisedAlerts(old(State()), RulesFor(rules, ev.service), trusted, ev)
      ensures forall r | r in rules && (Fits(r) ==> old(Agrees(State(), r, trusted, trace, KeyOf(r, ev), ev.ts))) ::
                RaisedAlert(old(State()), r, trusted, ev) == OwedAlert(r, trusted, trace)
      ensures RaisedTell(old(State()), rules, trusted, old(trace), ev)
      ensures forall r | r in rules :: RuleFed(old(State()), State(), r, trusted, ev)
      ensures AgreementKept(old(State()), State(), rules, trusted, old(trace), ev)
      ensures old(AllAgree(State(), rules, trusted, trace, ev.ts)) ==>
                && alerts == OwedAlerts(RulesFor(rules, ev.service), trusted, trace)
                && (AllHaveRoom(old(State()), rules, trusted, ev) ==> AllAgree(State(), rules, trusted, trace, ev.ts))
    {
      hide AllAgree, AllHaveRoom, Agrees, AllKept, RuleFed, FedUpTo, Observed, OneStep, MakeAlert, RulesFor, Applies,
           RaisedAlerts, OwedAlerts, OwedAlert, RaisedTell, AgreementKept, DistinctNames,
           Store.Consistent, Store.Bounded, Store.Timely;
      var rs := RulesFor(rules, ev.service);
      ghost var past, before := trace, State();
      StartEvent(before, rules, trusted, past, Clock(), ev);
      NothingFed(before, rules, rs, trusted, ev);
      alerts := [];
      NothingRaised(before, rs, trusted, ev);
      for i := 0 to |rs|
        invariant trace == past
        invariant State().Consistent() && State().Bounded() && State().Timely(ev.ts)
        invariant FedUpTo(before, State(), rules, rs, i, trusted, ev)
        invariant alerts == RaisedAlerts(before, rs[..i], trusted, ev)
      {
        var r := rs[i];
        ghost var st := State();
        var key := KeyOf(r, ev);
        RaisedNext(before, rs, i, trusted, ev);
        AppliesMeans(r, trusted, ev);
        if ev.service != r.service || !r.conditions(ev) || (r.untrustedOnly && trusted(ev.ip)) || key == "" {
          NextIsFed(before, st, st, rules, rs, i, trusted, ev);
        } else {
          var alert := Observe(r, key, ev);
          if alert.Some? {
            alerts := alerts + [alert.value];
          }
          NextIsFed(before, st, State(), rules, rs, i, trusted, ev);
        }
      }
      trace := trace + [ev];
      ghost var after := State();
      assert rs[..|rs|] == rs;
      AllFed(before, after, rules, rs, trusted, ev);
      FinishEvent(before, after, rules, trusted, past, ev);
      AllAgreementKept(before, after, rules, trusted, past, ev);
      AllRaisedAreOwed(before, rules, rs, trusted, past, ev);
      AllRaisedTell(before, rules, trusted, past, ev);
      if AllAgree(before, rules, trusted, past, ev.ts) && AllHaveRoom(before, rules, trusted, ev) {
        RoomKeepsAgreement(before, after, rules, trusted, past, ev);
      }
    }
  }
}
