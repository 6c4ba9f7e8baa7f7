/**
 * `dispatch`, `_flush_expired` and `flush_all` over the real flow table and evidence store, each uninterrupted. They
 * take the steps of the attribution model, so a reported flow is handed its own evidence and what earlier flows of its
 * key left behind.
 */
module Dispatcher {
  import opened Attribution
  import opened Evidence
  import opened FlowRecords
  import opened FlowTable
  import MinHeap
  import opened PyDict
  import opened Wrappers

  datatype Report = Report(record: FlowRecord, matches: set<string>, print_: Option<Fingerprint>)

  /** The model knows the flows of the table and counts their packets. */
  ghost predicate Follows<V>(flows: map<FlowKey, Flow<V>>, traces: map<FlowKey, seq<Packet>>) {
    && flows.Keys == traces.Keys
    && forall k | k in flows :: flows[k].packets == |traces[k]|
  }

  /** No worker is between its two sections. */
  ghost predicate Settled<V(!new)>(s: State<V>, traces: map<FlowKey, seq<Packet>>, trace: Trace<FlowKey, V>) {
    && Follows(s.flows, traces) && s.trace == trace && s.inflight == []
    && forall k, v :: BalancedAt(s, k, v)
  }

  /** The two sections of one worker, one after the other. */
  ghost function Dispatched<V>(s: State<V>, fwd: FlowKey, value: Option<V>, victim: Option<FlowKey>): State<V> {
    var t := Apply(s, Receive(fwd, value, victim));
    if t.inflight == [] then t else Apply(t, Store(0))
  }

  lemma SettledStep<V(!new)>(maxFlows: nat, s: State<V>, e: Step<V>)
    requires Legal(maxFlows, s, e)
    requires forall k, v :: BalancedAt(s, k, v)
    requires forall k :: Quiet(s, k) && Quiet(Apply(s, e), k)
    ensures forall k, v :: BalancedAt(Apply(s, e), k, v)
  {
    hide *;
    forall k, v
      ensures BalancedAt(Apply(s, e), k, v)
    {
      StepBalanced(maxFlows, s, e, k, v);
    }
  }

  lemma NothingWaits<V>(s: State<V>, k: FlowKey)
    requires s.waiting == map[] || s.inflight == []
    ensures Quiet(s, k)
  {
  }

  lemma DispatchSettles<V(!new)>(maxFlows: nat, s: State<V>, fwd: FlowKey, value: Option<V>, victim: Option<FlowKey>,
                                 traces: map<FlowKey, seq<Packet>>, trace: Trace<FlowKey, V>,
                                 later: map<FlowKey, seq<Packet>>, p: Packet)
    requires Settled(s, traces, trace) && s.waiting == map[] && Legal(maxFlows, s, Receive(fwd, value, victim))
    requires var k := Joins(s.flows, fwd).0;
             later == if k in traces then traces[k := traces[k] + [p]]
                      else (traces - if victim.Some? then {victim.value} else {})[k := [p]]
    ensures var (k, forward) := Joins(s.flows, fwd);
            var t := Dispatched(s, fwd, value, victim);
            && Settled(t, later, if forward && value.Some? then trace + [Add(k, value.value)] else trace)
            && t.waiting == map[]
  {
    hide BalancedAt, Leave, Quiet, Joins;
    var e := Receive(fwd, value, victim);
    var t := Apply(s, e);
    forall k ensures Quiet(s, k) && Quiet(t, k) {
      NothingWaits(s, k);
      NothingWaits(t, k);
    }
    SettledStep(maxFlows, s, e);
    if t.inflight != [] {
      forall k ensures Quiet(Apply(t, Store(0)), k) {
        NothingWaits(Apply(t, Store(0)), k);
      }
      SettledStep(maxFlows, t, Store(0));
    }
  }

  /** What one packet does to the packets of the active flows: it joins a flow, for which a full table gives one up. */
  ghost predicate TableStep(traces: map<FlowKey, seq<Packet>>, later: map<FlowKey, seq<Packet>>, maxFlows: nat,
                            fwd: FlowKey, k: FlowKey, forward: bool, victim: Option<FlowKey>, p: Packet) {
    && Joins(traces, fwd) == (k, forward)
    && (victim.Some? <==> k !in traces && |traces| >= maxFlows && traces != map[])
    && (victim.Some? ==> victim.value in traces)
    && later == if k in traces then traces[k := traces[k] + [p]]
                else (traces - if victim.Some? then {victim.value} else {})[k := [p]]
  }

  /** The step from what the table says of it; the new packet is the last of its flow. */
  lemma TableSteps(traces: map<FlowKey, seq<Packet>>, later: map<FlowKey, seq<Packet>>, maxFlows: nat, fwd: FlowKey,
                   k: FlowKey, forward: bool, victims: set<FlowKey>, p: Packet) returns (victim: Option<FlowKey>)
    requires Joins(traces, fwd) == (k, forward) && victims <= traces.Keys
    requires |victims| == if k !in traces && |traces| >= maxFlows && traces != map[] then 1 else 0
    requires later == if k in traces then traces[k := traces[k] + [p]] else (traces - victims)[k := [p]]
    ensures TableStep(traces, later, maxFlows, fwd, k, forward, victim, p)
    ensures UpTo(traces, p.ts) ==> UpTo(later, p.ts)
  {
    if victims == {} {
      victim := None;
    } else {
      var v :| v in victims;
      assert |victims - {v}| == 0;
      assert victims == {v};
      victim := Some(v);
    }
  }

  lemma TableKeys(flows: Flows)
    ensures TracesOf(flows).Keys == flows.vals.Keys
  {
  }

  ghost predicate UpTo(traces: map<FlowKey, seq<Packet>>, t: real) {
    forall k | k in traces :: traces[k] != [] && Last(traces[k]).ts <= t
  }

  lemma SameTable<V>(s: State<V>, fwd: FlowKey, traces: map<FlowKey, seq<Packet>>)
    requires Follows(s.flows, traces)
    ensures Joins(s.flows, fwd) == Joins(traces, fwd)
    ensures |s.flows| == |traces| && (s.flows == map[] <==> traces == map[])
  {
    assert |s.flows| == |s.flows.Keys| && |traces.Keys| == |traces|;
    assert s.flows == map[] <==> s.flows.Keys == {};
    assert traces == map[] <==> traces.Keys == {};
  }

  /** The table's step is legal in the model, and dispatching keeps the two together. */
  lemma PacketSettles<V(!new)>(maxFlows: nat, s: State<V>, fwd: FlowKey, value: Option<V>, victim: Option<FlowKey>,
                               traces: map<FlowKey, seq<Packet>>, later: map<FlowKey, seq<Packet>>,
                               trace: Trace<FlowKey, V>, k: FlowKey, forward: bool, p: Packet)
    requires Settled(s, traces, trace) && s.waiting == map[]
    requires TableStep(traces, later, maxFlows, fwd, k, forward, victim, p)
    ensures Legal(maxFlows, s, Receive(fwd, value, victim))
    ensures var t := Dispatched(s, fwd, value, victim);
            && Settled(t, later, if forward && value.Some? then trace + [Add(k, value.value)] else trace)
            && t.waiting == map[]
  {
    hide BalancedAt, Joins, Dispatched;
    SameTable(s, fwd, traces);
    DispatchSettles(maxFlows, s, fwd, value, victim, traces, trace, later, p);
  }

  lemma TableSize(flows: Flows, traces: map<FlowKey, seq<Packet>>)
    requires flows.Valid() && traces.Keys == flows.vals.Keys
    ensures |traces| == |flows.keys| && (flows.keys == [] <==> traces == map[])
  {
    NoDuplicatesSize(flows.keys, flows.vals.Keys);
    assert |traces| == |traces.Keys|;
    assert traces == map[] <==> traces.Keys == {};
  }

  lemma CollectSettles<V(!new)>(maxFlows: nat, s: State<V>, gone: set<FlowKey>, traces: map<FlowKey, seq<Packet>>,
                                trace: Trace<FlowKey, V>)
    requires Settled(s, traces, trace) && s.waiting == map[] && gone <= s.flows.Keys
    ensures Settled(Collected(s, gone), traces - gone, trace)
    ensures Collected(s, gone).waiting.Keys == set k | k in gone && k in traces && |traces[k]| >= 2
  {
    hide BalancedAt, Leave, Quiet;
    forall k ensures Quiet(s, k) && Quiet(Collected(s, gone), k) {
      NothingWaits(s, k);
      NothingWaits(Collected(s, gone), k);
    }
    SettledStep(maxFlows, s, Collect(gone));
    assert Apply(s, Collect(gone)) == Collected(s, gone);
    assert Collected(s, gone).flows.Keys == (traces - gone).Keys;
  }

  lemma HandOverSettles<V(!new)>(maxFlows: nat, s: State<V>, j: FlowKey, traces: map<FlowKey, seq<Packet>>,
                                 trace: Trace<FlowKey, V>)
    requires Settled(s, traces, trace) && j in s.waiting
    ensures Settled(Apply(s, HandOver(j)), traces, trace + [Pop(j)])
  {
    hide BalancedAt, Quiet;
    forall k ensures Quiet(s, k) && Quiet(Apply(s, HandOver(j)), k) {
      NothingWaits(s, k);
      NothingWaits(Apply(s, HandOver(j)), k);
    }
    SettledStep(maxFlows, s, HandOver(j));
  }

  /** Since `start` other keys were handed over; `k` still waits with all that was its. */
  ghost predicate StillWaits<V>(start: State<V>, s: State<V>, k: FlowKey) {
    && k in start.waiting && k in s.waiting && s.waiting[k] == start.waiting[k]
    && Left(s, k) == Left(start, k) && OnlyPops(start.trace, s.trace, k)
  }

  lemma OthersStillWait<V>(start: State<V>, s: State<V>, j: FlowKey, k: FlowKey)
    requires StillWaits(start, s, k) && j != k
    ensures StillWaits(start, Apply(s, HandOver(j)), k)
  {
    hide OnlyPops;
    PopAfter(start.trace, s.trace, j, k);
  }

  lemma PopAfter<V>(a: Trace<FlowKey, V>, b: Trace<FlowKey, V>, j: FlowKey, k: FlowKey)
    requires OnlyPops(a, b, k) && j != k
    ensures OnlyPops(a, b + [Pop(j)], k)
  {
  }

  /** The matches of a report: its own and those left behind, all of them if they fit. */
  ghost predicate MatchesOk(start: State<set<string>>, k: FlowKey, cap: nat, matches: set<string>) {
    && k in start.waiting
    && var all := AllOf(Left(start, k)) + AllOf(start.waiting[k].own);
    matches <= all && (BelowCap(start.trace, cap) && |all| <= MATCH_CAP ==> matches == all)
  }

  ghost predicate PrintOk(start: State<Fingerprint>, k: FlowKey, cap: nat, print_: Option<Fingerprint>) {
    && k in start.waiting
    && var all := Left(start, k) + start.waiting[k].own;
    (print_.Some? ==> print_.value in all) && (BelowCap(start.trace, cap) ==> (print_.None? <==> all == multiset{}))
  }

  lemma StoredIsAll<V(!new)>(s: State<V>, k: FlowKey)
    requires k in s.waiting && forall v :: BalancedAt(s, k, v)
    ensures Stored(s.trace, k) == Left(s, k) + s.waiting[k].own
  {
    hide Stored, Left, Own;
    forall v ensures Stored(s.trace, k)[v] == (Left(s, k) + s.waiting[k].own)[v] {
      assert BalancedAt(s, k, v);
    }
  }

  lemma ReportMatches(start: State<set<string>>, s: State<set<string>>, k: FlowKey, cap: nat, matches: set<string>)
    requires StillWaits(start, s, k) && MayHandOver(s.trace, k, cap, matches)
    requires forall v :: BalancedAt(start, k, v)
    requires forall v :: BalancedAt(s, k, v)
    ensures MatchesOk(start, k, cap, matches)
  {
    hide BalancedAt, MayHandOver, OnlyPops, Stored, Left, BelowCap, Since;
    StoredIsAll(start, k);
    StoredIsAll(s, k);
    var left, own := Left(start, k), start.waiting[k].own;
    HandedMatches(s.trace, k, cap, matches, left, own);
    SinceIsAllStored(start.trace, k);
    AllOfBoth(left, own);
    if Fits(start.trace, k, cap) {
      OnlyPopsKeeps(start.trace, s.trace, k, cap);
    }
  }

  lemma ReportPrint(start: State<Fingerprint>, s: State<Fingerprint>, k: FlowKey, cap: nat, print_: Option<Fingerprint>)
    requires StillWaits(start, s, k)
    requires print_ == if Alive(s.trace, k, cap) then LastValue(s.trace, k) else None
    requires forall v :: BalancedAt(s, k, v)
    ensures PrintOk(start, k, cap, print_)
  {
    hide BalancedAt, OnlyPops, Stored, Left, BelowCap, Alive, LastValue;
    StoredIsAll(s, k);
    HandedPrint(s.trace, k, cap, print_, Left(start, k), start.waiting[k].own);
    if BelowCap(start.trace, cap) {
      OnlyPopsBelowCap(start.trace, s.trace, k, cap);
    }
  }

  ghost predicate Distinct(keys: seq<FlowKey>) {
    forall i, j | 0 <= i < j < |keys| :: keys[i] != keys[j]
  }

  /** The first `i` of the waiting keys have been handed over. */
  ghost predicate Handing<V>(start: State<V>, s: State<V>, keys: seq<FlowKey>, i: nat) {
    && i <= |keys| && s.flows == start.flows
    && (forall k :: k in s.waiting <==> k in keys[i..])
    && (forall k | k in s.waiting :: StillWaits(start, s, k))
    && (forall k :: Left(s, k) == if k in keys[..i] then multiset{} else Left(start, k))
    && (forall cap :: BelowCap(start.trace, cap) ==> BelowCap(s.trace, cap))
  }

  lemma HandingStarts<V>(s: State<V>, keys: seq<FlowKey>)
    requires forall k :: k in s.waiting <==> k in keys
    ensures Handing(s, s, keys, 0)
  {
    hide Left;
    assert keys[0..] == keys;
    forall k | k in s.waiting ensures StillWaits(s, s, k) {
      NoPops(s.trace, k);
    }
  }

  lemma HandingNext<V>(start: State<V>, s: State<V>, keys: seq<FlowKey>, i: nat)
    requires Distinct(keys) && i < |keys| && Handing(start, s, keys, i)
    ensures keys[i] in s.waiting && StillWaits(start, s, keys[i])
    ensures Handing(start, Apply(s, HandOver(keys[i])), keys, i + 1)
  {
    hide StillWaits, BelowCap, Left, Distinct;
    var j, t := keys[i], Apply(s, HandOver(keys[i]));
    SplitAt(keys, i);
    HandOverLeft(s, j);
    forall k | k in t.waiting ensures StillWaits(start, t, k) {
      OthersStillWait(start, s, j, k);
    }
    forall cap | BelowCap(start.trace, cap) ensures BelowCap(t.trace, cap) {
      PopKeepsBelowCap(s.trace, j, cap);
    }
  }

  lemma HandOverLeft<V>(s: State<V>, j: FlowKey)
    ensures forall k :: Left(Apply(s, HandOver(j)), k) == if k == j then multiset{} else Left(s, k)
  {
  }

  lemma SplitAt(keys: seq<FlowKey>, i: nat)
    requires Distinct(keys) && i < |keys|
    ensures forall k :: k in keys[i..] <==> k == keys[i] || k in keys[i + 1..]
    ensures forall k :: k in keys[..i + 1] <==> k == keys[i] || k in keys[..i]
    ensures keys[i] !in keys[i + 1..]
  {
    assert keys[i..] == [keys[i]] + keys[i + 1..] && keys[..i + 1] == keys[..i] + [keys[i]];
    var rest := keys[i + 1..];
    forall k | k in rest ensures k != keys[i] {
      var m :| 0 <= m < |rest| && rest[m] == k;
      assert k == keys[i + 1 + m];
    }
  }

  /** The keys of the reported records, from the table's contract. */
  lemma ReportedKeys(reported: seq<FlowRecord>, was: Flows, gone: set<FlowKey>, keys: seq<FlowKey>)
    requires ReportsExactly(reported, was, gone)
    requires |keys| == |reported| && forall i | 0 <= i < |keys| :: keys[i] == reported[i].key
    requires RecordsOk(was)
    ensures Distinct(keys)
    ensures forall k :: k in keys <==> k in gone && k in TracesOf(was) && |TracesOf(was)[k]| >= 2
    ensures forall r | r in reported :: r.key in was.vals && was.vals[r.key] == r
  {
    hide FlowRecord.Valid;
    forall i, j | 0 <= i < j < |keys| ensures keys[i] != keys[j] {
      assert reported[i] in reported && reported[j] in reported;
    }
    forall k
      ensures k in keys <==> k in gone && k in TracesOf(was) && |TracesOf(was)[k]| >= 2
    {
      if k in keys {
        var i :| 0 <= i < |keys| && keys[i] == k;
        assert reported[i] in reported;
      }
      if k in gone && k in TracesOf(was) && |TracesOf(was)[k]| >= 2 {
        var i :| 0 <= i < |reported| && reported[i] == was.vals[k];
        assert keys[i] == k;
      }
    }
  }

  /**
   * The flows in `gone` ended: every one of at least two packets is reported once, with the matches and the fingerprint
   * that were its own or left behind under its key; nothing of a reported key stays behind.
   */
  ghost predicate HandedOut(matches: State<set<string>>, prints: State<Fingerprint>, gone: set<FlowKey>, cap: nat,
                            out: seq<Report>, matches': State<set<string>>, prints': State<Fingerprint>) {
    var m, p := Collected(matches, gone), Collected(prints, gone);
    && gone <= matches.flows.Keys
    && (forall k :: k in m.waiting <==> exists i :: 0 <= i < |out| && out[i].record.key == k)
    && (forall i, j | 0 <= i < j < |out| :: out[i].record.key != out[j].record.key)
    && (forall i | 0 <= i < |out| ::
          MatchesOk(m, out[i].record.key, cap, out[i].matches) && PrintOk(p, out[i].record.key, cap, out[i].print_))
    && matches'.flows == m.flows && prints'.flows == p.flows
    && (forall k :: Left(matches', k) == if k in m.waiting then multiset{} else Left(m, k))
    && (forall k :: Left(prints', k) == if k in p.waiting then multiset{} else Left(p, k))
    && (BelowCap(matches.trace, cap) ==> BelowCap(matches'.trace, cap))
  }

  /** The record is the table's. */
  ghost predicate IsRecordOf(record: FlowRecord, flows: Flows) {
    record.key in flows.vals && flows.vals[record.key] == record
  }

  lemma RecordOf(reported: seq<FlowRecord>, was: Flows, i: nat)
    requires i < |reported| && forall r | r in reported :: r.key in was.vals && was.vals[r.key] == r
    ensures IsRecordOf(reported[i], was)
  {
    assert reported[i] in reported;
  }

  lemma SettledKeys<V(!new)>(s: State<V>, traces: map<FlowKey, seq<Packet>>, trace: Trace<FlowKey, V>)
    requires Settled(s, traces, trace)
    ensures s.flows.Keys == traces.Keys && s.inflight == []
  {
  }

  lemma AllHandedOut(matches: State<set<string>>, prints: State<Fingerprint>, gone: set<FlowKey>, cap: nat,
                     keys: seq<FlowKey>, out: seq<Report>, m': State<set<string>>, p': State<Fingerprint>)
    requires gone <= matches.flows.Keys && Distinct(keys) && |out| == |keys|
    requires var m, p := Collected(matches, gone), Collected(prints, gone);
             && Handing(m, m', keys, |keys|) && Handing(p, p', keys, |keys|)
             && (forall k :: k in m.waiting <==> k in keys) && (forall k :: k in p.waiting <==> k in keys)
             && forall i | 0 <= i < |out| :: out[i].record.key == keys[i]
                                             && MatchesOk(m, keys[i], cap, out[i].matches)
                                             && PrintOk(p, keys[i], cap, out[i].print_)
    ensures HandedOut(matches, prints, gone, cap, out, m', p')
    ensures m'.waiting == map[] && p'.waiting == map[]
  {
    hide MatchesOk, PrintOk, StillWaits, Left, Leave, BelowCap;
    assert keys[..|keys|] == keys && keys[|keys|..] == [];
    var m := Collected(matches, gone);
    forall k
      ensures k in m.waiting <==> exists i :: 0 <= i < |out| && out[i].record.key == k
    {
      if k in keys {
        var i :| 0 <= i < |keys| && keys[i] == k;
        assert out[i].record.key == k;
      }
    }
    assert m'.waiting.Keys == {} && p'.waiting.Keys == {};
  }

  lemma TracesWithout(was: Flows, flows: Flows, gone: set<FlowKey>)
    requires flows.vals == was.vals - gone
    ensures TracesOf(flows) == TracesOf(was) - gone && TracesOf(was).Keys == was.vals.Keys
  {
  }

  lemma SilentAreActive(was: Flows, gone: set<FlowKey>, heap: MinHeap.Heap<FlowKey>, cutoff: real)
    requires gone == SilentAndDue(was, heap, cutoff)
    ensures gone <= was.vals.Keys
  {
  }

  lemma LastTimes(flows: Flows, t: real)
    requires RecordsOk(flows)
    ensures UpTo(TracesOf(flows), t) ==> forall k | k in flows.vals :: flows.vals[k].lastTime <= t
  {
    hide FlowRecord.Valid;
    forall k | k in flows.vals ensures flows.vals[k].lastTime == Last(TracesOf(flows)[k]).ts {
      LastPacket(flows.vals[k]);
    }
  }

  lemma AllSilent(flows: Flows, cutoff: real)
    requires RecordsOk(flows)
    ensures UpTo(TracesOf(flows), cutoff) ==> Silent(flows, cutoff) == flows.vals.Keys
  {
    hide FlowRecord.Valid, RecordsOk, TracesOf, UpTo;
    LastTimes(flows, cutoff);
  }

  lemma TableRecords(table: FlowExtractor)
    requires table.Valid()
    ensures RecordsOk(table.flows)
  {
  }

  lemma EmptyTable(flows: Flows)
    requires flows.Valid() && flows.keys == []
    ensures flows.vals == map[]
  {
    assert flows.vals.Keys == {};
  }

  class Dispatcher {
    const extractor: FlowExtractor
    const store: EvidenceStore<FlowKey>
    ghost var matches: State<set<string>>
    ghost var prints: State<Fingerprint>

    ghost predicate Valid()
      reads this, extractor, store, set k | k in extractor.flows.vals :: extractor.flows.vals[k]
    {
      Linked(matches, prints)
    }

    /** Table, dictionaries and the two states of the model belong together. */
    ghost predicate Linked(m: State<set<string>>, p: State<Fingerprint>)
      reads extractor, store, set k | k in extractor.flows.vals :: extractor.flows.vals[k]
    {
      && extractor.Valid() && 0 < store.cap && store.PayloadOk() && store.Ja3Ok()
      && Settled(m, extractor.Traces(), store.hits) && m.waiting == map[]
      && Settled(p, extractor.Traces(), store.prints) && p.waiting == map[]
    }

    /** One table, and dictionaries with as many places as the table. */
    constructor (timeout: real, gap: real, maxFlows: nat)
      requires 0 < maxFlows
      ensures Valid() && fresh(extractor) && fresh(store) && matches == Init() && prints == Init()
      ensures extractor.maxFlows == store.cap == maxFlows && extractor.timeout == timeout
      ensures extractor.flows.vals == map[]
      ensures forall t :: InTime(t)
    {
      extractor := new FlowExtractor(timeout, gap, maxFlows);
      store := new EvidenceStore<FlowKey>(maxFlows);
      matches, prints := Init(), Init();
      new;
      forall k, v ensures BalancedAt(matches, k, v) { InitBalanced(k, v); }
      forall k, v ensures BalancedAt(prints, k, v) { InitBalanced(k, v); }
    }

    /** Every flow has a due entry in time, and nothing in the table is later than `t`. */
    ghost predicate InTime(t: real)
      reads extractor, set k | k in extractor.flows.vals :: extractor.flows.vals[k]
    {
      extractor.Timely() && UpTo(extractor.Traces(), t)
    }

    /** `process_packet`, seen from the packets of the active flows. */
    method Join(fwd: FlowKey, len: nat, ts: real) returns (key: FlowKey, forward: bool, ghost victim: Option<FlowKey>)
      requires extractor.Valid()
      modifies extractor, set k | k in extractor.flows.vals :: extractor.flows.vals[k]
      ensures extractor.Valid()
      ensures forall j | j in extractor.flows.vals ::
                (j in old(extractor.flows.vals) && extractor.flows.vals[j] == old(extractor.flows.vals[j]))
                || fresh(extractor.flows.vals[j])
      ensures TableStep(old(extractor.Traces()), extractor.Traces(), extractor.maxFlows, fwd, key, forward, victim,
                        Packet(ts, len, forward))
      ensures old(InTime(ts)) ==> InTime(ts)
    {
      hide FlowTable.OldestOnly, KeysOk, Indexed, RecordsOk, TracesOf, TimelyOn, UpTo, TableStep, NothingElseDue;
      ghost var flows, traces := extractor.flows, extractor.Traces();
      KeysOkValid(flows);
      TableKeys(flows);
      TableSize(flows, traces);
      LastTimes(flows, ts);
      ghost var victims;
      key, forward, victims := extractor.ProcessPacket(fwd, len, ts);
      victim := TableSteps(traces, extractor.Traces(), extractor.maxFlows, fwd, key, forward, victims,
                           Packet(ts, len, forward));
    }

    /**
     * `dispatch`: `found` are the packet's matches and `hello` its fingerprint. Both stores take the two sections of a
     * worker; a packet that is not IP changes nothing.
     */
    method Dispatch(fwd: Option<FlowKey>, len: nat, ts: real, found: set<string>, hello: Option<Fingerprint>)
        returns (ghost victim: Option<FlowKey>)
      requires Valid()
      modifies this, extractor, store, set k | k in extractor.flows.vals :: extractor.flows.vals[k]
      ensures Valid()
      ensures fwd.None? ==> matches == old(matches) && prints == old(prints)
      ensures fwd.Some? ==>
                var value := if found == {} then None else Some(found);
                && Legal(extractor.maxFlows, old(matches), Receive(fwd.value, value, victim))
                && matches == Dispatched(old(matches), fwd.value, value, victim)
                && prints == Dispatched(old(prints), fwd.value, hello, victim)
      ensures old(InTime(ts)) ==> InTime(ts)
      ensures forall j | j in extractor.flows.vals ::
                (j in old(extractor.flows.vals) && extractor.flows.vals[j] == old(extractor.flows.vals[j]))
                || fresh(extractor.flows.vals[j])
    {
      hide Linked, InTime, Legal, Dispatched;
      victim := None;
      if fwd.Some? {
        ghost var m, p;
        victim, m, p := DispatchIp(fwd.value, len, ts, found, hello, matches, prints);
        matches, prints := m, p;
      }
    }

    method DispatchIp(fwd: FlowKey, len: nat, ts: real, found: set<string>, hello: Option<Fingerprint>,
                      ghost m: State<set<string>>, ghost p: State<Fingerprint>)
        returns (ghost victim: Option<FlowKey>, ghost m': State<set<string>>, ghost p': State<Fingerprint>)
      requires Linked(m, p)
      modifies extractor, store, set k | k in extractor.flows.vals :: extractor.flows.vals[k]
      ensures Linked(m', p')
      ensures var value := if found == {} then None else Some(found);
              && Legal(extractor.maxFlows, m, Receive(fwd, value, victim))
              && m' == Dispatched(m, fwd, value, victim) && p' == Dispatched(p, fwd, hello, victim)
      ensures old(InTime(ts)) ==> InTime(ts)
      ensures forall j | j in extractor.flows.vals ::
                (j in old(extractor.flows.vals) && extractor.flows.vals[j] == old(extractor.flows.vals[j]))
                || fresh(extractor.flows.vals[j])
    {
      hide Settled, Legal, Dispatched, TableStep, TableOk, TracesOf, InTime;
      hide EvidenceStore.PayloadOk, EvidenceStore.Ja3Ok;
      ghost var traces, value := extractor.Traces(), if found == {} then None else Some(found);
      var key, forward;
      key, forward, victim := Join(fwd, len, ts);
      ghost var packet, later := Packet(ts, len, forward), extractor.Traces();
      PacketSettles(extractor.maxFlows, m, fwd, value, victim, traces, later, store.hits, key, forward, packet);
      PacketSettles(extractor.maxFlows, p, fwd, hello, victim, traces, later, store.prints, key, forward, packet);
      m', p' := Dispatched(m, fwd, value, victim), Dispatched(p, fwd, hello, victim);
      Remember(key, forward, found, hello);
    }

    /** The two store sections of `dispatch`. */
    method Remember(key: FlowKey, forward: bool, found: set<string>, hello: Option<Fingerprint>)
      requires 0 < store.cap && store.PayloadOk() && store.Ja3Ok()
      modifies store
      ensures store.PayloadOk() && store.Ja3Ok()
      ensures store.hits == if forward && found != {} then old(store.hits) + [Add(key, found)] else old(store.hits)
      ensures store.prints == if forward && hello.Some? then old(store.prints) + [Add(key, hello.value)]
                              else old(store.prints)
    {
      if hello.Some? {
        store.AddFingerprint(Some(key), forward, hello.value);
      }
      store.AddMatches(Some(key), forward, found);
    }

    /** The hand-over loop of `_flush_expired` and `flush_all`. */
    method HandOverAll(reported: seq<FlowRecord>, ghost keys: seq<FlowKey>, ghost m: State<set<string>>,
                       ghost p: State<Fingerprint>, ghost traces: map<FlowKey, seq<Packet>>)
        returns (out: seq<Report>, ghost m': State<set<string>>, ghost p': State<Fingerprint>)
      requires 0 < store.cap && store.PayloadOk() && store.Ja3Ok()
      requires Settled(m, traces, store.hits) && Settled(p, traces, store.prints)
      requires |keys| == |reported| && (forall i | 0 <= i < |keys| :: keys[i] == reported[i].key) && Distinct(keys)
      requires forall k :: k in m.waiting <==> k in keys
      requires forall k :: k in p.waiting <==> k in keys
      modifies store
      ensures store.PayloadOk() && store.Ja3Ok()
      ensures Settled(m', traces, store.hits) && Settled(p', traces, store.prints)
      ensures Handing(m, m', keys, |keys|) && Handing(p, p', keys, |keys|)
      ensures |out| == |reported|
      ensures forall i | 0 <= i < |out| :: out[i].record == reported[i]
                                           && MatchesOk(m, keys[i], store.cap, out[i].matches)
                                           && PrintOk(p, keys[i], store.cap, out[i].print_)
    {
      hide Handing, BalancedAt, MatchesOk, PrintOk, Follows, EvidenceStore.PayloadOk, EvidenceStore.Ja3Ok, StillWaits;
      out, m', p' := [], m, p;
      HandingStarts(m, keys);
      HandingStarts(p, keys);
      for i := 0 to |reported|
        invariant store.PayloadOk() && store.Ja3Ok()
        invariant Settled(m', traces, store.hits) && Settled(p', traces, store.prints)
        invariant Handing(m, m', keys, i) && Handing(p, p', keys, i)
        invariant |out| == i
        invariant forall j | 0 <= j < i :: out[j].record == reported[j]
                                           && MatchesOk(m, keys[j], store.cap, out[j].matches)
                                           && PrintOk(p, keys[j], store.cap, out[j].print_)
      {
        ghost var k := keys[i];
        HandingNext(m, m', keys, i);
        HandingNext(p, p', keys, i);
        HandOverSettles(0, m', k, traces, store.hits);
        HandOverSettles(0, p', k, traces, store.prints);
        var matches, print_ := store.HandOver(reported[i].key);
        ReportMatches(m, m', k, store.cap, matches);
        ReportPrint(p, p', k, store.cap, print_);
        m', p' := Apply(m', HandOver(k)), Apply(p', HandOver(k));
        out := out + [Report(reported[i], matches, print_)];
      }
    }

    /** The flows in `gone` have left the table; their reports and the evidence are still to do. */
    method HandOut(reported: seq<FlowRecord>, ghost was: Flows, ghost gone: set<FlowKey>,
                   ghost traces: map<FlowKey, seq<Packet>>)
        returns (out: seq<Report>)
      requires 0 < store.cap && store.PayloadOk() && store.Ja3Ok()
      requires Settled(matches, traces, store.hits) && matches.waiting == map[]
      requires Settled(prints, traces, store.prints) && prints.waiting == map[]
      requires RecordsOk(was) && traces == TracesOf(was) && gone <= traces.Keys && ReportsExactly(reported, was, gone)
      modifies this`matches, this`prints, store
      ensures store.PayloadOk() && store.Ja3Ok()
      ensures Settled(matches, traces - gone, store.hits) && matches.waiting == map[]
      ensures Settled(prints, traces - gone, store.prints) && prints.waiting == map[]
      ensures HandedOut(old(matches), old(prints), gone, store.cap, out, matches, prints)
      ensures forall i | 0 <= i < |out| :: IsRecordOf(out[i].record, was)
    {
      hide Settled, RecordsOk, TracesOf, ReportsExactly, Collected, HandedOut, Handing, IsRecordOf, MatchesOk, PrintOk;
      hide EvidenceStore.PayloadOk, EvidenceStore.Ja3Ok;
      ghost var keys := seq(|reported|, i requires 0 <= i < |reported| => reported[i].key);
      ReportedKeys(reported, was, gone, keys);
      ghost var m, p := Collected(matches, gone), Collected(prints, gone);
      SettledKeys(matches, traces, store.hits);
      SettledKeys(prints, traces, store.prints);
      CollectSettles(0, matches, gone, traces, store.hits);
      CollectSettles(0, prints, gone, traces, store.prints);
      ghost var m', p';
      out, m', p' := HandOverAll(reported, keys, m, p, traces - gone);
      AllHandedOut(matches, prints, gone, store.cap, keys, out, m', p');
      forall i | 0 <= i < |out| ensures IsRecordOf(out[i].record, was) {
        RecordOf(reported, was, i);
      }
      matches, prints := m', p';
    }

    /** The collection of a flush, seen from the packets of the active flows. */
    method Collect(now: real) returns (reported: seq<FlowRecord>, ghost gone: set<FlowKey>)
      requires extractor.Valid()
      modifies extractor
      ensures extractor.Valid()
      ensures gone == SilentAndDue(old(extractor.flows), old(extractor.heap), now - extractor.timeout)
      ensures gone <= old(extractor.Traces()).Keys && ReportsExactly(reported, old(extractor.flows), gone)
      ensures extractor.flows.vals == old(extractor.flows.vals) - gone
      ensures extractor.Traces() == old(extractor.Traces()) - gone && RecordsOk(old(extractor.flows))
      ensures old(InTime(now - extractor.timeout)) ==> extractor.Timely() && gone == old(extractor.flows.vals.Keys)
    {
      hide RecordsOk, SilentAndDue, ReportsExactly, TracesOf, FlowExtractor.Valid;
      TableRecords(extractor);
      ghost var was := extractor.flows;
      reported, gone := extractor.CollectExpired(now);
      TracesWithout(was, extractor.flows, gone);
      AllSilent(was, now - extractor.timeout);
      SilentAreActive(was, gone, old(extractor.heap), now - extractor.timeout);
    }

    /** `_flush_expired`: the flows that the table collects, with their evidence if they have two packets. */
    method FlushExpired(now: real) returns (out: seq<Report>, ghost gone: set<FlowKey>)
      requires Valid()
      modifies this, store, extractor
      ensures Valid()
      ensures gone == SilentAndDue(old(extractor.flows), old(extractor.heap), now - extractor.timeout)
      ensures extractor.flows.vals == old(extractor.flows.vals) - gone
      ensures old(InTime(now - extractor.timeout)) ==> extractor.Timely() && gone == old(extractor.flows.vals.Keys)
      ensures HandedOut(old(matches), old(prints), gone, store.cap, out, matches, prints)
      ensures forall i | 0 <= i < |out| :: IsRecordOf(out[i].record, old(extractor.flows))
    {
      hide Settled, RecordsOk, SilentAndDue, ReportsExactly, HandedOut, IsRecordOf, InTime;
      hide EvidenceStore.PayloadOk, EvidenceStore.Ja3Ok, TracesOf, FlowExtractor.Valid;
      ghost var was, traces := extractor.flows, extractor.Traces();
      var reported;
      reported, gone := Collect(now);
      out := HandOut(reported, was, gone, traces);
    }

    /** `flush_all`: the same for every active flow. */
    method FlushAll() returns (out: seq<Report>)
      requires Valid()
      modifies this, store, extractor
      ensures Valid() && extractor.flows.keys == []
      ensures HandedOut(old(matches), old(prints), old(extractor.flows.vals.Keys), store.cap, out, matches, prints)
      ensures forall i | 0 <= i < |out| :: IsRecordOf(out[i].record, old(extractor.flows))
    {
      hide Settled, RecordsOk, GapsAre, SilentAndDue, ReportsExactly, HandedOut, IsRecordOf;
      hide EvidenceStore.PayloadOk, EvidenceStore.Ja3Ok, TracesOf, Indexed;
      ghost var was, traces, gone := extractor.flows, extractor.Traces(), extractor.flows.vals.Keys;
      var reported := extractor.CollectAll();
      EmptyTable(extractor.flows);
      TracesWithout(was, extractor.flows, gone);
      out := HandOut(reported, was, gone, traces);
    }
  }

  /* ---- a flow of one packet, and the next flow of its key ---- */

  /** A forward packet that finds room, dispatched. */
  lemma DispatchedAlone<V>(s: State<V>, k: FlowKey, value: Option<V>)
    requires s.inflight == [] && (k in s.flows || (s.flows == map[]))
    ensures var t := Dispatched(s, k, value, None);
            var bag := if value.Some? then multiset{value.value} else multiset{};
            && t.flows == s.flows[k := Flow(1 + (if k in s.flows then s.flows[k].packets else 0), Own(s, k) + bag)]
            && Left(t, k) == Left(s, k)
            && t.trace == if value.Some? then s.trace + [Add(k, value.value)] else s.trace
  {
    hide Own, Leave, Left;
    assert s.flows - {} == s.flows;
    var t := Apply(s, Receive(k, value, None));
    LeftAfter(s, {}, t, k);
    assert value.Some? ==> value.value in multiset{value.value};
    assert Left(Dispatched(s, k, value, None), k) == Left(t, k) by { SameLeft(t, Dispatched(s, k, value, None), k); }
  }

  lemma SameLeft<V>(s: State<V>, t: State<V>, k: FlowKey)
    requires s.left == t.left
    ensures Left(s, k) == Left(t, k)
  {
  }

  lemma UpToLater(traces: map<FlowKey, seq<Packet>>, t: real, u: real)
    requires UpTo(traces, t) && t <= u
    ensures UpTo(traces, u)
  {
  }

  /** What the model knows of the table between two calls. */
  lemma AtRest(d: Dispatcher, t: real, u: real)
    requires d.Valid() && t <= u
    ensures d.matches.inflight == [] && d.matches.flows.Keys == d.extractor.flows.vals.Keys
    ensures d.InTime(t) ==> d.InTime(u)
  {
    hide Settled, UpTo, TableOk, TimelyOn, EvidenceStore.PayloadOk, EvidenceStore.Ja3Ok;
    SettledKeys(d.matches, d.extractor.Traces(), d.store.hits);
    if d.InTime(t) {
      UpToLater(d.extractor.Traces(), t, u);
    }
  }

  lemma EmptyInTime(d: Dispatcher, t: real)
    requires d.extractor.Timely() && d.extractor.flows.vals == map[]
    ensures d.InTime(t)
  {
  }

  /** A flow of one packet with a match, timed out: not reported, and its match stays behind. */
  method ShortFlow(k: FlowKey, found: string) returns (d: Dispatcher, out: seq<Report>)
    ensures fresh(d) && fresh(d.extractor) && fresh(d.store) && d.Valid() && d.extractor.timeout == 120.0
    ensures d.extractor.flows.vals == map[]
    ensures out == [] && d.store.cap == 10 && d.InTime(180.0) && BelowCap(d.matches.trace, 10)
    ensures d.matches.flows == map[] && Left(d.matches, k) == multiset{{found}}
  {
    hide *;
    d := new Dispatcher(120.0, 1.0, 10);
    ghost var victim := d.Dispatch(Some(k), 60, 100.0, {found}, None);
    FirstDispatch(k, {found}, victim);
    AtRest(d, 100.0, 180.0);
    ghost var m, p := d.matches, d.prints;
    assert m.flows.Keys == {k};
    ghost var gone;
    out, gone := d.FlushExpired(300.0);
    NothingReported(m, p, k, {found}, 10, out, d.matches, d.prints);
    EmptyInTime(d, 180.0);
  }

  /** Two packets without a match later, the next flow of the key is handed the match. */
  method ShortFlowIsHandedOn(k: FlowKey, found: string)
      returns (d: Dispatcher, first: seq<Report>, second: seq<Report>, ghost own: multiset<set<string>>)
    ensures first == [] && own == multiset{}
    ensures |second| == 1 && second[0].record.key == k && second[0].matches == {found}
  {
    hide *;
    d, first := ShortFlow(k, found);
    ghost var m0 := d.matches;
    AtRest(d, 180.0, 400.0);
    ghost var v1 := d.Dispatch(Some(k), 60, 400.0, {}, None);
    PlainDispatch(d.extractor.maxFlows, m0, k, v1);
    ghost var m1 := d.matches;
    AtRest(d, 400.0, 400.0);
    ghost var v2 := d.Dispatch(Some(k), 60, 400.0, {}, None);
    PlainDispatch(d.extractor.maxFlows, m1, k, v2);
    AtRest(d, 400.0, 480.0);
    ghost var m2, p2 := d.matches, d.prints;
    own := Own(m2, k);
    assert m2.flows.Keys == {k};
    ghost var gone;
    second, gone := d.FlushExpired(600.0);
    OneReported(m2, p2, k, {found}, 10, second, d.matches, d.prints);
  }

  lemma OutSize(out: seq<Report>, keys: set<FlowKey>)
    requires forall k :: k in keys <==> exists i :: 0 <= i < |out| && out[i].record.key == k
    requires forall i, j | 0 <= i < j < |out| :: out[i].record.key != out[j].record.key
    ensures |out| == |keys|
  {
    var listed := seq(|out|, i requires 0 <= i < |out| => out[i].record.key);
    forall k ensures k in listed <==> k in keys {
      if k in keys {
        var i :| 0 <= i < |out| && out[i].record.key == k;
        assert listed[i] == k;
      }
    }
    NoDuplicatesSize(listed, keys);
  }

  lemma NothingReported(m: State<set<string>>, p: State<Fingerprint>, k: FlowKey, found: set<string>, cap: nat,
                        out: seq<Report>, m': State<set<string>>, p': State<Fingerprint>)
    requires m.flows == map[k := Flow(1, multiset{found})] && Left(m, k) == multiset{}
    requires HandedOut(m, p, {k}, cap, out, m', p')
    ensures out == [] && m'.flows == map[] && Left(m', k) == multiset{found}
    ensures BelowCap(m.trace, cap) ==> BelowCap(m'.trace, cap)
  {
    hide Leave, Left, BelowCap, MatchesOk, PrintOk;
    CollectedAt(m, {k}, k);
    var t := Collected(m, {k});
    assert t.waiting == map[];
    OutSize(out, t.waiting.Keys);
    assert t.flows == map[];
    assert multiset{} + multiset{found} == multiset{found};
  }

  lemma PlainDispatch(maxFlows: nat, s: State<set<string>>, k: FlowKey, victim: Option<FlowKey>)
    requires s.inflight == [] && (s.flows == map[] || s.flows.Keys == {k})
    requires Legal(maxFlows, s, Receive(k, None, victim))
    ensures var t := Dispatched(s, k, None, victim);
            && t.flows == map[k := Flow(1 + (if k in s.flows then s.flows[k].packets else 0), Own(s, k))]
            && Left(t, k) == Left(s, k) && t.trace == s.trace
            && Own(t, k) == Own(s, k) && (s.flows == map[] ==> Own(s, k) == multiset{})
  {
    hide Left, Dispatched;
    DispatchedAlone(s, k, None);
    assert Own(s, k) + multiset{} == Own(s, k);
  }

  lemma OneReported(m: State<set<string>>, p: State<Fingerprint>, k: FlowKey, found: set<string>, cap: nat,
                    out: seq<Report>, m': State<set<string>>, p': State<Fingerprint>)
    requires m.flows == map[k := Flow(2, multiset{})] && Left(m, k) == multiset{found}
    requires HandedOut(m, p, {k}, cap, out, m', p') && BelowCap(m.trace, cap) && |found| == 1
    ensures |out| == 1 && out[0].record.key == k && out[0].matches == found
  {
    hide Leave, Left, BelowCap, PrintOk, AllOf;
    CollectedAt(m, {k}, k);
    var t := Collected(m, {k});
    assert t.waiting.Keys == {k};
    OutSize(out, t.waiting.Keys);
    assert out[0].record.key in t.waiting;
    assert Left(t, k) == multiset{found} by { assert multiset{found} + multiset{} == multiset{found}; }
    AllOfOne(found);
    AllOfNone();
    assert MatchesOk(t, k, cap, out[0].matches);
  }

  lemma FirstDispatch(k: FlowKey, found: set<string>, victim: Option<FlowKey>)
    requires Legal(10, Init<set<string>>(), Receive(k, Some(found), victim))
    ensures victim == None
    ensures var s := Dispatched(Init<set<string>>(), k, Some(found), victim);
            && s.flows == map[k := Flow(1, multiset{found})] && Left(s, k) == multiset{}
            && BelowCap(s.trace, 10)
  {
    DispatchedAlone(Init<set<string>>(), k, Some(found));
    assert multiset{} + multiset{found} == multiset{found};
    var s := Dispatched(Init<set<string>>(), k, Some(found), victim);
    assert s.trace == [Add(k, found)];
    forall n | 0 <= n <= 1 ensures |Live(s.trace[..n])| <= 10 {
      assert s.trace[..n] == [] || (s.trace[..n] == s.trace && s.trace[..0] == []);
    }
  }
}
