/**
 * Whose evidence a flow is handed: packet workers, the flow table, one evidence dictionary and the flusher, interleaved
 * at their lock sections. Evidence waits under the flow's key, and a key can name one flow after another.
 */
module Attribution {
  import opened Evidence
  import opened FlowRecords
  import opened Wrappers

  /** An active or reported flow: its packets, and the evidence of its own forward packets. */
  datatype Flow<V(==)> = Flow(packets: nat, own: multiset<V>)

  /** A worker between the lock section of the flow table and that of the dictionary. */
  datatype Pending<V> = Pending(key: FlowKey, value: V)

  /**
   * `waiting` are the flows that were collected with enough packets and whose evidence is not popped yet; `left` is the
   * evidence of the flows of a key that ended without being reported since the key's last hand-over.
   */
  datatype State<V(==)> = State(flows: map<FlowKey, Flow<V>>, inflight: seq<Pending<V>>, waiting: map<FlowKey, Flow<V>>,
                                left: map<FlowKey, multiset<V>>, trace: Trace<FlowKey, V>)

  /** Which flow is evicted from a full table, and which flows time out, is the flow table's choice. */
  datatype Step<V> =
    | Receive(fwd: FlowKey, value: Option<V>, victim: Option<FlowKey>)
    | Store(worker: nat)
    | Collect(gone: set<FlowKey>)
    | HandOver(key: FlowKey)

  function Init<V(==)>(): State<V> {
    State(map[], [], map[], map[], [])
  }

  /** The flow a packet joins, and whether it goes forward there. */
  function Joins<T>(flows: map<FlowKey, T>, fwd: FlowKey): (FlowKey, bool) {
    if fwd in flows then (fwd, true) else if fwd.Reverse() in flows then (fwd.Reverse(), false) else (fwd, true)
  }

  function Left<V(==)>(s: State<V>, k: FlowKey): multiset<V> {
    if k in s.left then s.left[k] else multiset{}
  }

  function Own<V(==)>(s: State<V>, k: FlowKey): multiset<V> {
    if k in s.flows then s.flows[k].own else multiset{}
  }

  /** Flows that end unreported leave their evidence behind. */
  function Leave<V(==)>(s: State<V>, lost: set<FlowKey>): map<FlowKey, multiset<V>> {
    map k | k in s.left.Keys + lost :: Left(s, k) + if k in lost then Own(s, k) else multiset{}
  }

  function Evidences<V(==)>(flows: map<FlowKey, Flow<V>>, fwd: FlowKey, value: Option<V>): multiset<V> {
    if Joins(flows, fwd).1 && value.Some? then multiset{value.value} else multiset{}
  }

  function Received<V(==)>(s: State<V>, fwd: FlowKey, value: Option<V>, victim: Option<FlowKey>): State<V> {
    var k, bag := Joins(s.flows, fwd).0, Evidences(s.flows, fwd, value);
    var lost := if victim.Some? then {victim.value} else {};
    s.(flows := (s.flows - lost)[k := Flow(1 + (if k in s.flows then s.flows[k].packets else 0), Own(s, k) + bag)],
       left := Leave(s, lost),
       inflight := if bag != multiset{} then s.inflight + [Pending(k, value.value)] else s.inflight)
  }

  /** Fewer than two packets give no feature vector, and the flow is not reported. */
  function Short<V(==)>(s: State<V>, gone: set<FlowKey>): set<FlowKey> {
    set k | k in gone && k in s.flows && s.flows[k].packets < 2
  }

  function Collected<V(==)>(s: State<V>, gone: set<FlowKey>): State<V> {
    s.(flows := s.flows - gone,
       waiting := map k | k in gone && k in s.flows && s.flows[k].packets >= 2 :: s.flows[k],
       left := Leave(s, Short(s, gone)))
  }

  function Apply<V(==)>(s: State<V>, e: Step<V>): State<V> {
    match e
    case Receive(fwd, value, victim) => Received(s, fwd, value, victim)
    case Store(i) =>
      if i >= |s.inflight| then s
      else
        var p := s.inflight[i];
        s.(inflight := s.inflight[..i] + s.inflight[i + 1..], trace := s.trace + [Add(p.key, p.value)])
    case Collect(gone) => Collected(s, gone)
    case HandOver(k) => s.(waiting := s.waiting - {k}, left := s.left - {k}, trace := s.trace + [Pop(k)])
  }

  /** A full table evicts one active flow for a new one; there is one flusher, and it hands over what it collected. */
  ghost predicate Legal<V>(maxFlows: nat, s: State<V>, e: Step<V>) {
    match e
    case Receive(fwd, _, victim) =>
      && (victim.Some? <==> Joins(s.flows, fwd).0 !in s.flows && |s.flows| >= maxFlows && s.flows != map[])
      && (victim.Some? ==> victim.value in s.flows)
    case Store(i) => i < |s.inflight|
    case Collect(gone) => s.waiting == map[] && gone <= s.flows.Keys
    case HandOver(k) => k in s.waiting
  }

  function RunFrom<V(==)>(s: State<V>, steps: seq<Step<V>>): State<V> {
    if steps == [] then s else Apply(RunFrom(s, steps[..|steps| - 1]), steps[|steps| - 1])
  }

  ghost predicate LegalRun<V>(maxFlows: nat, s: State<V>, steps: seq<Step<V>>) {
    steps == []
    || (LegalRun(maxFlows, s, steps[..|steps| - 1])
        && Legal(maxFlows, RunFrom(s, steps[..|steps| - 1]), steps[|steps| - 1]))
  }

  /** The evidence of `k` that workers are about to store. */
  function Pend<V(==)>(inflight: seq<Pending<V>>, k: FlowKey): multiset<V> {
    if inflight == [] then multiset{}
    else
      var p := inflight[|inflight| - 1];
      Pend(inflight[..|inflight| - 1], k) + if p.key == k then multiset{p.value} else multiset{}
  }

  /** The evidence stored under `k` since it was last popped. */
  ghost function Stored<V>(trace: Trace<FlowKey, V>, k: FlowKey): multiset<V> {
    if trace == [] then multiset{}
    else
      var before, e := Stored(trace[..|trace| - 1], k), trace[|trace| - 1];
      if e.key != k then before else if e.Pop? then multiset{} else before + multiset{e.value}
  }

  /** No worker is about to store evidence of `k` while a flow of `k` waits for its hand-over. */
  ghost predicate Quiet<V>(s: State<V>, k: FlowKey) {
    k in s.waiting ==> Pend(s.inflight, k) == multiset{}
  }

  ghost predicate QuietRun<V>(s: State<V>, steps: seq<Step<V>>, k: FlowKey) {
    Quiet(RunFrom(s, steps), k) && (steps == [] || QuietRun(s, steps[..|steps| - 1], k))
  }

  /* ---- the balance ---- */

  /** Evidence stored and under way is that of the key's flow and of those that left theirs behind, count by count. */
  ghost predicate BalancedAt<V>(s: State<V>, k: FlowKey, v: V) {
    if k in s.waiting then Stored(s.trace, k)[v] == Left(s, k)[v] + s.waiting[k].own[v] && Own(s, k)[v] == 0
    else Stored(s.trace, k)[v] + Pend(s.inflight, k)[v] == Left(s, k)[v] + Own(s, k)[v]
  }

  lemma StoredNext<V>(trace: Trace<FlowKey, V>, e: Event<FlowKey, V>, k: FlowKey)
    ensures Stored(trace + [e], k)
         == if e.key != k then Stored(trace, k)
            else if e.Pop? then multiset{} else Stored(trace, k) + multiset{e.value}
  {
    assert (trace + [e])[..|trace|] == trace;
  }

  lemma PendNext<V>(inflight: seq<Pending<V>>, p: Pending<V>, k: FlowKey)
    ensures Pend(inflight + [p], k) == Pend(inflight, k) + if p.key == k then multiset{p.value} else multiset{}
  {
    assert (inflight + [p])[..|inflight|] == inflight;
  }

  lemma {:induction false} PendWithout<V>(inflight: seq<Pending<V>>, i: nat, k: FlowKey, v: V)
    requires i < |inflight|
    ensures var p := inflight[i];
            Pend(inflight, k)[v]
            == Pend(inflight[..i] + inflight[i + 1..], k)[v] + if p.key == k && p.value == v then 1 else 0
  {
    hide Pend;
    var n := |inflight| - 1;
    var init, last := inflight[..n], inflight[n];
    assert inflight == init + [last];
    PendNext(init, last, k);
    if i < n {
      PendWithout(init, i, k, v);
      PendNext(init[..i] + init[i + 1..], last, k);
      assert inflight[..i] + inflight[i + 1..] == init[..i] + init[i + 1..] + [last];
    } else {
      assert inflight[..i] + inflight[i + 1..] == init;
    }
  }

  lemma LeftAfter<V>(s: State<V>, lost: set<FlowKey>, t: State<V>, k: FlowKey)
    requires t.left == Leave(s, lost)
    ensures Left(t, k) == Left(s, k) + if k in lost then Own(s, k) else multiset{}
  {
  }

  /** What a packet changes for one key. */
  lemma ReceivedAt<V>(maxFlows: nat, s: State<V>, e: Step<V>, k: FlowKey)
    requires e.Receive? && Legal(maxFlows, s, e)
    ensures var t, j, bag := Apply(s, e), Joins(s.flows, e.fwd).0, Evidences(s.flows, e.fwd, e.value);
            && t.waiting == s.waiting && t.trace == s.trace
            && Left(t, k) == Left(s, k) + (if e.victim == Some(k) then Own(s, k) else multiset{})
            && Own(t, k) == (if k == j then Own(s, k) + bag
                             else if e.victim == Some(k) then multiset{} else Own(s, k))
            && (e.victim == Some(k) ==> k != j)
  {
    hide Leave, Evidences;
    LeftAfter(s, if e.victim.Some? then {e.victim.value} else {}, Apply(s, e), k);
  }

  lemma ReceivedPend<V>(s: State<V>, e: Step<V>, k: FlowKey)
    requires e.Receive?
    ensures var bag := if k == Joins(s.flows, e.fwd).0 then Evidences(s.flows, e.fwd, e.value) else multiset{};
            Pend(Apply(s, e).inflight, k) == Pend(s.inflight, k) + bag
  {
    hide Pend, Leave;
    if Evidences(s.flows, e.fwd, e.value) != multiset{} {
      PendNext(s.inflight, Pending(Joins(s.flows, e.fwd).0, e.value.value), k);
    }
  }

  lemma ReceiveBalanced<V>(maxFlows: nat, s: State<V>, e: Step<V>, k: FlowKey, v: V)
    requires e.Receive? && Legal(maxFlows, s, e) && BalancedAt(s, k, v) && Quiet(Apply(s, e), k)
    ensures BalancedAt(Apply(s, e), k, v)
  {
    hide Stored, Pend, Left, Own, Apply, Evidences, Joins, Legal;
    ReceivedAt(maxFlows, s, e, k);
    ReceivedPend(s, e, k);
  }

  lemma StoreBalanced<V>(s: State<V>, i: nat, k: FlowKey, v: V)
    requires i < |s.inflight| && BalancedAt(s, k, v) && Quiet(s, k)
    ensures BalancedAt(Apply(s, Store(i)), k, v)
  {
    hide Stored, Pend;
    var p := s.inflight[i];
    PendWithout(s.inflight, i, k, v);
    StoredNext(s.trace, Add(p.key, p.value), k);
  }

  /** What a collection changes for one key. */
  lemma CollectedAt<V>(s: State<V>, gone: set<FlowKey>, k: FlowKey)
    ensures var t := Collected(s, gone);
            && t.inflight == s.inflight && t.trace == s.trace
            && (k in t.waiting <==> k in gone && k in s.flows && s.flows[k].packets >= 2)
            && (k in t.waiting ==> t.waiting[k].own == Own(s, k))
            && Own(t, k) == (if k in gone then multiset{} else Own(s, k))
            && Left(t, k) == Left(s, k) + if k in gone && k !in t.waiting then Own(s, k) else multiset{}
  {
    hide Leave;
    LeftAfter(s, Short(s, gone), Collected(s, gone), k);
  }

  lemma CollectBalanced<V>(s: State<V>, gone: set<FlowKey>, k: FlowKey, v: V)
    requires s.waiting == map[] && BalancedAt(s, k, v) && Quiet(Collected(s, gone), k)
    ensures BalancedAt(Collected(s, gone), k, v)
  {
    hide Stored, Pend, Collected, Left, Own;
    CollectedAt(s, gone, k);
  }

  lemma HandOverBalanced<V>(s: State<V>, j: FlowKey, k: FlowKey, v: V)
    requires j in s.waiting && BalancedAt(s, k, v) && Quiet(s, k)
    ensures BalancedAt(Apply(s, HandOver(j)), k, v)
  {
    hide Stored, Pend;
    StoredNext(s.trace, Pop(j), k);
  }

  lemma StepBalanced<V>(maxFlows: nat, s: State<V>, e: Step<V>, k: FlowKey, v: V)
    requires Legal(maxFlows, s, e) && BalancedAt(s, k, v) && Quiet(s, k) && Quiet(Apply(s, e), k)
    ensures BalancedAt(Apply(s, e), k, v)
  {
    hide BalancedAt, Quiet, Received, Collected;
    match e
    case Receive(_, _, _) => ReceiveBalanced(maxFlows, s, e, k, v);
    case Store(i) => StoreBalanced(s, i, k, v);
    case Collect(gone) => CollectBalanced(s, gone, k, v);
    case HandOver(j) => HandOverBalanced(s, j, k, v);
  }

  lemma {:induction false} RunBalanced<V>(maxFlows: nat, s: State<V>, steps: seq<Step<V>>, k: FlowKey, v: V)
    requires LegalRun(maxFlows, s, steps) && QuietRun(s, steps, k) && BalancedAt(s, k, v)
    ensures BalancedAt(RunFrom(s, steps), k, v)
  {
    if steps != [] {
      hide BalancedAt, Quiet, Apply, Legal;
      RunBalanced(maxFlows, s, steps[..|steps| - 1], k, v);
      QuietAtEnd(s, steps[..|steps| - 1], k);
      StepBalanced(maxFlows, RunFrom(s, steps[..|steps| - 1]), steps[|steps| - 1], k, v);
    }
  }

  lemma QuietAtEnd<V>(s: State<V>, steps: seq<Step<V>>, k: FlowKey)
    requires QuietRun(s, steps, k)
    ensures Quiet(RunFrom(s, steps), k)
  {
  }

  lemma InitBalanced<V>(k: FlowKey, v: V)
    ensures BalancedAt(Init<V>(), k, v)
  {
  }

  /**
   * Over every quiet run: what is stored for a reported flow is its own evidence, complete, and that of the flows of
   * its key that ended unreported since the key's last hand-over.
   */
  lemma HandedExactly<V(!new)>(maxFlows: nat, steps: seq<Step<V>>, k: FlowKey)
    requires LegalRun(maxFlows, Init<V>(), steps) && QuietRun(Init<V>(), steps, k)
    requires k in RunFrom(Init<V>(), steps).waiting
    ensures var s := RunFrom(Init<V>(), steps);
            Stored(s.trace, k) == Left(s, k) + s.waiting[k].own
  {
    hide Stored, Left, LegalRun, QuietRun, RunFrom, Init;
    var s := RunFrom(Init<V>(), steps);
    forall v: V
      ensures Stored(s.trace, k)[v] == (Left(s, k) + s.waiting[k].own)[v]
    {
      InitBalanced(k, v);
      RunBalanced(maxFlows, Init<V>(), steps, k, v);
    }
  }

  /* ---- the next hand-over of a key, on every continuation ---- */

  ghost predicate NoHandOver<V>(steps: seq<Step<V>>, k: FlowKey) {
    forall i | 0 <= i < |steps| :: steps[i] != HandOver(k)
  }

  /** A quiet continuation before the next hand-over of `k`, on which no flow of `k` leaves evidence behind. */
  ghost predicate Along<V>(maxFlows: nat, s: State<V>, more: seq<Step<V>>, k: FlowKey) {
    && LegalRun(maxFlows, s, more) && QuietRun(s, more, k) && NoHandOver(more, k)
    && Left(RunFrom(s, more), k) == Left(s, k)
  }

  ghost predicate NextHandOver<V>(maxFlows: nat, s: State<V>, more: seq<Step<V>>, k: FlowKey) {
    Along(maxFlows, s, more, k) && k in RunFrom(s, more).waiting
  }

  lemma AlongNone<V>(maxFlows: nat, s: State<V>, k: FlowKey)
    requires Quiet(s, k)
    ensures Along(maxFlows, s, [], k) && RunFrom(s, []) == s
  {
  }

  lemma AlongNext<V>(maxFlows: nat, s: State<V>, more: seq<Step<V>>, k: FlowKey, e: Step<V>)
    requires Along(maxFlows, s, more, k) && Legal(maxFlows, RunFrom(s, more), e) && e != HandOver(k)
    requires Quiet(Apply(RunFrom(s, more), e), k) && Left(Apply(RunFrom(s, more), e), k) == Left(s, k)
    ensures Along(maxFlows, s, more + [e], k) && RunFrom(s, more + [e]) == Apply(RunFrom(s, more), e)
  {
    hide Quiet, Left, Apply, Legal;
    assert (more + [e])[..|more|] == more;
  }

  /** The workers finish: nothing is under way any more. */
  lemma {:induction false} FinishWorkers<V>(maxFlows: nat, s: State<V>, more: seq<Step<V>>, k: FlowKey)
    returns (later: seq<Step<V>>)
    requires Along(maxFlows, s, more, k) && k !in RunFrom(s, more).waiting
    ensures Along(maxFlows, s, later, k)
    ensures var t, u := RunFrom(s, more), RunFrom(s, later);
            u == t.(inflight := [], trace := u.trace) && (t.inflight == [] ==> u == t)
    decreases |RunFrom(s, more).inflight|
  {
    hide Along, RunFrom;
    var t := RunFrom(s, more);
    if t.inflight == [] {
      later := more;
    } else {
      AlongLeft(maxFlows, s, more, k);
      AlongNext(maxFlows, s, more, k, Store(0));
      later := FinishWorkers(maxFlows, s, more + [Store(0)], k);
    }
  }

  lemma AlongLeft<V>(maxFlows: nat, s: State<V>, more: seq<Step<V>>, k: FlowKey)
    requires Along(maxFlows, s, more, k)
    ensures Left(RunFrom(s, more), k) == Left(s, k)
  {
  }

  /** The flusher finishes with the other keys; that takes nothing from `k`. */
  lemma {:induction false} FinishFlusher<V>(maxFlows: nat, s: State<V>, more: seq<Step<V>>, k: FlowKey)
    returns (later: seq<Step<V>>)
    requires Along(maxFlows, s, more, k) && k !in RunFrom(s, more).waiting
    ensures Along(maxFlows, s, later, k)
    ensures var t, u := RunFrom(s, more), RunFrom(s, later);
            u == t.(waiting := map[], left := u.left, trace := u.trace) && OnlyPops(t.trace, u.trace, k)
    decreases |RunFrom(s, more).waiting|
  {
    hide Along, RunFrom, OnlyPops;
    var t := RunFrom(s, more);
    if t.waiting == map[] {
      later := more;
      NoPops(t.trace, k);
    } else {
      var j :| j in t.waiting;
      AlongLeft(maxFlows, s, more, k);
      AlongNext(maxFlows, s, more, k, HandOver(j));
      later := FinishFlusher(maxFlows, s, more + [HandOver(j)], k);
      OnePop(t.trace, j, RunFrom(s, later).trace, k);
    }
  }

  /** `later` is `trace` with hand-overs of other keys appended. */
  ghost predicate OnlyPops<V>(trace: Trace<FlowKey, V>, later: Trace<FlowKey, V>, k: FlowKey) {
    && trace <= later
    && forall i | |trace| <= i < |later| :: later[i].Pop? && later[i].key != k
  }

  lemma NoPops<V>(trace: Trace<FlowKey, V>, k: FlowKey)
    ensures OnlyPops(trace, trace, k)
  {
  }

  lemma OnePop<V>(trace: Trace<FlowKey, V>, j: FlowKey, later: Trace<FlowKey, V>, k: FlowKey)
    requires j != k && OnlyPops(trace + [Pop(j)], later, k)
    ensures OnlyPops(trace, later, k)
  {
    assert forall i | 0 <= i <= |trace| :: later[i] == (trace + [Pop(j)])[i];
    assert trace <= trace + [Pop(j)];
  }

  /** Two packets without evidence and a collection of every flow: `k` is reported next. */
  lemma ReportNext<V>(maxFlows: nat, s: State<V>, more: seq<Step<V>>, k: FlowKey) returns (later: seq<Step<V>>)
    requires Along(maxFlows, s, more, k)
    requires var t := RunFrom(s, more); t.inflight == [] && t.waiting == map[] && (k in t.flows || t.flows == map[])
    ensures NextHandOver(maxFlows, s, later, k)
    ensures var t, u := RunFrom(s, more), RunFrom(s, later); u.trace == t.trace && u.waiting[k].own == Own(t, k)
  {
    hide Along, RunFrom, Leave, Left;
    var t := RunFrom(s, more);
    var packet := Receive(k, None, None);
    AlongLeft(maxFlows, s, more, k);
    LeftAfter(t, {}, Apply(t, packet), k);
    AlongNext(maxFlows, s, more, k, packet);
    var t1 := RunFrom(s, more + [packet]);
    LeftAfter(t1, {}, Apply(t1, packet), k);
    AlongNext(maxFlows, s, more + [packet], k, packet);
    var t2 := RunFrom(s, more + [packet] + [packet]);
    var all := Collect(t2.flows.Keys);
    CollectedAt(t2, t2.flows.Keys, k);
    AlongNext(maxFlows, s, more + [packet] + [packet], k, all);
    later := more + [packet] + [packet] + [all];
  }

  /** There always is such a continuation, and one that stores nothing new if no worker is busy. */
  lemma NextHandOverExists<V>(maxFlows: nat, s: State<V>, k: FlowKey) returns (more: seq<Step<V>>)
    requires k !in s.waiting
    ensures NextHandOver(maxFlows, s, more, k)
    ensures s.inflight == [] ==> OnlyPops(s.trace, RunFrom(s, more).trace, k)
    ensures RunFrom(s, more).waiting[k].own == Own(s, k)
  {
    hide Along, RunFrom, OnlyPops;
    AlongNone(maxFlows, s, k);
    var a := FinishWorkers(maxFlows, s, [], k);
    var b := FinishFlusher(maxFlows, s, a, k);
    var t := RunFrom(s, b);
    if k in t.flows {
      more := ReportNext(maxFlows, s, b, k);
    } else {
      AlongLeft(maxFlows, s, b, k);
      CollectedAt(t, t.flows.Keys, k);
      AlongNext(maxFlows, s, b, k, Collect(t.flows.Keys));
      var c := FinishFlusher(maxFlows, s, b + [Collect(t.flows.Keys)], k);
      MorePops(RunFrom(s, a).trace, t.trace, RunFrom(s, c).trace, k);
      assert RunFrom(s, c).flows == map[];
      more := ReportNext(maxFlows, s, c, k);
    }
  }

  lemma MorePops<V>(a: Trace<FlowKey, V>, b: Trace<FlowKey, V>, c: Trace<FlowKey, V>, k: FlowKey)
    requires OnlyPops(a, b, k) && OnlyPops(b, c, k)
    ensures OnlyPops(a, c, k)
  {
    assert forall i | |a| <= i < |b| :: c[i] == b[i];
  }

  /**
   * In every state reached quietly, before the key's next hand-over: that hand-over gives exactly the reported flow's
   * own evidence, on every quiet continuation that leaves nothing more behind, if and only if no flow of the key that
   * ended unreported since the last hand-over had evidence.
   */
  lemma NextHandOverIsOwnIff<V(!new)>(maxFlows: nat, steps: seq<Step<V>>, k: FlowKey)
    requires LegalRun(maxFlows, Init<V>(), steps) && QuietRun(Init<V>(), steps, k)
    requires k !in RunFrom(Init<V>(), steps).waiting
    ensures var s := RunFrom(Init<V>(), steps);
            (forall more: seq<Step<V>> | NextHandOver(maxFlows, s, more, k) ::
               Stored(RunFrom(s, more).trace, k) == RunFrom(s, more).waiting[k].own)
            <==> Left(s, k) == multiset{}
  {
    hide *;
    var s := RunFrom(Init<V>(), steps);
    forall more: seq<Step<V>> | NextHandOver(maxFlows, s, more, k)
      ensures k in RunFrom(s, more).waiting
      ensures Stored(RunFrom(s, more).trace, k) == Left(s, k) + RunFrom(s, more).waiting[k].own
    {
      HandedNext(maxFlows, steps, more, k);
    }
    var more := NextHandOverExists(maxFlows, s, k);
    if Left(s, k) != multiset{} {
      MoreThanOwn(Left(s, k), RunFrom(s, more).waiting[k].own);
    }
  }

  lemma MoreThanOwn<V>(left: multiset<V>, own: multiset<V>)
    requires left != multiset{}
    ensures left + own != own
  {
    var v :| v in left;
    assert (left + own)[v] != own[v];
  }

  lemma HandedNext<V(!new)>(maxFlows: nat, steps: seq<Step<V>>, more: seq<Step<V>>, k: FlowKey)
    requires LegalRun(maxFlows, Init<V>(), steps) && QuietRun(Init<V>(), steps, k)
    requires NextHandOver(maxFlows, RunFrom(Init<V>(), steps), more, k)
    ensures var s := RunFrom(Init<V>(), steps);
            k in RunFrom(s, more).waiting && Left(RunFrom(s, more), k) == Left(s, k)
            && Stored(RunFrom(s, more).trace, k) == Left(s, k) + RunFrom(s, more).waiting[k].own
  {
    hide Stored, Left, LegalRun, QuietRun, RunFrom, NoHandOver, Init;
    var s := RunFrom(Init<V>(), steps);
    var t := RunFrom(s, more);
    forall v: V
      ensures Stored(t.trace, k)[v] == (Left(t, k) + t.waiting[k].own)[v]
    {
      InitBalanced(k, v);
      RunBalanced(maxFlows, Init<V>(), steps, k, v);
      RunBalanced(maxFlows, s, more, k, v);
    }
  }

  /* ---- payload matches: sets of strings, at most `MATCH_CAP` of them ---- */

  ghost function AllOf(bag: multiset<set<string>>): set<string> {
    set matches, x | matches in bag && x in matches :: x
  }

  lemma AllOfBoth(a: multiset<set<string>>, b: multiset<set<string>>)
    ensures AllOf(a + b) == AllOf(a) + AllOf(b)
  {
  }

  lemma {:induction false} SinceIsAllStored(trace: Trace<FlowKey, set<string>>, k: FlowKey)
    ensures Since(trace, k) == AllOf(Stored(trace, k))
  {
    if trace == [] {
      AllOfNone();
    } else {
      hide AllOf;
      var before, e := trace[..|trace| - 1], trace[|trace| - 1];
      SinceIsAllStored(before, k);
      AllOfNone();
      if e.Add? {
        AllOfOne(e.value);
        AllOfBoth(Stored(before, k), multiset{e.value});
      }
    }
  }

  lemma AllOfNone()
    ensures AllOf(multiset{}) == {}
  {
  }

  lemma AllOfOne(matches: set<string>)
    ensures AllOf(multiset{matches}) == matches
  {
    assert forall x | x in matches :: x in AllOf(multiset{matches});
  }

  /** Below the cap, and with at most `MATCH_CAP` matches of the key, nothing is dropped. */
  ghost predicate Fits(trace: Trace<FlowKey, set<string>>, k: FlowKey, cap: nat) {
    BelowCap(trace, cap) && |Since(trace, k)| <= MATCH_CAP
  }

  /** A reported flow is handed no more than its own matches and those left behind, and all of them if they fit. */
  lemma HandedMatches(trace: Trace<FlowKey, set<string>>, k: FlowKey, cap: nat, matches: set<string>,
                      left: multiset<set<string>>, own: multiset<set<string>>)
    requires Stored(trace, k) == left + own && MayHandOver(trace, k, cap, matches)
    ensures matches <= AllOf(left) + AllOf(own)
    ensures Fits(trace, k, cap) ==> matches == AllOf(left) + AllOf(own)
  {
    hide Stored, AllOf, MayHandOver, Since, BelowCap;
    HandedOver(trace, k, cap, matches);
    SinceIsAllStored(trace, k);
    AllOfBoth(left, own);
  }

  lemma {:induction false} OnlyPopsBelowCap<V>(trace: Trace<FlowKey, V>, later: Trace<FlowKey, V>, k: FlowKey, cap: nat)
    requires OnlyPops(trace, later, k) && BelowCap(trace, cap)
    ensures BelowCap(later, cap)
    decreases |later|
  {
    if |later| == |trace| {
      assert later == trace;
    } else {
      hide BelowCap;
      var before, e := later[..|later| - 1], later[|later| - 1];
      assert later == before + [e];
      assert trace <= before;
      OnlyPopsBelowCap(trace, before, k, cap);
      PopKeepsBelowCap(before, e.key, cap);
    }
  }

  lemma {:induction false} OnlyPopsSince(trace: Trace<FlowKey, set<string>>, later: Trace<FlowKey, set<string>>,
                                         k: FlowKey)
    requires OnlyPops(trace, later, k)
    ensures Since(later, k) == Since(trace, k)
    decreases |later|
  {
    if |later| == |trace| {
      assert later == trace;
    } else {
      hide Since;
      var before, e := later[..|later| - 1], later[|later| - 1];
      assert later == before + [e];
      assert trace <= before;
      OnlyPopsSince(trace, before, k);
      SinceNext(before, e, k);
    }
  }

  lemma OnlyPopsKeeps(trace: Trace<FlowKey, set<string>>, later: Trace<FlowKey, set<string>>, k: FlowKey, cap: nat)
    requires OnlyPops(trace, later, k) && Fits(trace, k, cap)
    ensures Fits(later, k, cap)
  {
    hide OnlyPops, BelowCap, Since;
    OnlyPopsBelowCap(trace, later, k, cap);
    OnlyPopsSince(trace, later, k);
  }

  lemma AllMayBeHandedOver(trace: Trace<FlowKey, set<string>>, k: FlowKey, cap: nat)
    requires Fits(trace, k, cap)
    ensures MayHandOver(trace, k, cap, Since(trace, k))
  {
    hide Alive, Matches, Since, BelowCap, Live;
    NothingLostBelowCap(trace, k, cap);
    NobodyEvicted(trace, k, cap);
    if !Alive(trace, k, cap) {
      NoMatchesWhenNotLive(trace, k);
    }
  }

  /** The evidence of the flow that is or was active under `k`. */
  ghost function Current<V>(s: State<V>, k: FlowKey): multiset<V> {
    if k in s.waiting then s.waiting[k].own else Own(s, k)
  }

  /** Before the next hand-over evidence left behind only grows, and it does grow when a flow with evidence is lost. */
  ghost predicate Keeps<V>(s: State<V>, t: State<V>, k: FlowKey) {
    Left(s, k) <= Left(t, k) && (Left(s, k) == Left(t, k) ==> Current(s, k) <= Current(t, k))
  }

  lemma ReceiveKeeps<V>(maxFlows: nat, s: State<V>, e: Step<V>, k: FlowKey)
    requires e.Receive? && Legal(maxFlows, s, e)
    ensures Keeps(s, Apply(s, e), k)
  {
    hide Left, Own, Apply, Joins, Evidences, Legal;
    ReceivedAt(maxFlows, s, e, k);
    LostIsMore(Left(s, k), Own(s, k));
  }

  lemma CollectKeeps<V>(s: State<V>, gone: set<FlowKey>, k: FlowKey)
    requires s.waiting == map[]
    ensures Keeps(s, Collected(s, gone), k)
  {
    hide Left, Own, Collected;
    CollectedAt(s, gone, k);
    LostIsMore(Left(s, k), Own(s, k));
  }

  lemma StepKeeps<V>(maxFlows: nat, s: State<V>, e: Step<V>, k: FlowKey)
    requires Legal(maxFlows, s, e) && e != HandOver(k)
    ensures Keeps(s, Apply(s, e), k)
  {
    match e
    case Receive(_, _, _) =>
      hide Keeps, Apply;
      ReceiveKeeps(maxFlows, s, e, k);
    case Collect(gone) =>
      hide Keeps, Collected;
      CollectKeeps(s, gone, k);
    case _ =>
  }

  lemma LostIsMore<V>(left: multiset<V>, own: multiset<V>)
    ensures left <= left + own && (left == left + own ==> own == multiset{})
  {
    if own != multiset{} {
      MoreThanOwn(own, left);
      assert own + left == left + own;
    }
  }

  lemma {:induction false} RunKeeps<V>(maxFlows: nat, s: State<V>, more: seq<Step<V>>, k: FlowKey)
    requires LegalRun(maxFlows, s, more) && NoHandOver(more, k)
    ensures Keeps(s, RunFrom(s, more), k)
  {
    if more != [] {
      hide Left, Current, Apply, Legal;
      var before := more[..|more| - 1];
      assert forall i | 0 <= i < |before| :: before[i] == more[i];
      RunKeeps(maxFlows, s, before, k);
      StepKeeps(maxFlows, RunFrom(s, before), more[|more| - 1], k);
    }
  }

  lemma OwnGrows(maxFlows: nat, s: State<set<string>>, more: seq<Step<set<string>>>, k: FlowKey)
    requires NextHandOver(maxFlows, s, more, k) && k !in s.waiting
    ensures AllOf(Own(s, k)) <= AllOf(RunFrom(s, more).waiting[k].own)
  {
    hide Left, LegalRun, QuietRun, RunFrom, NoHandOver;
    RunKeeps(maxFlows, s, more, k);
    assert Own(s, k) <= RunFrom(s, more).waiting[k].own;
  }

  /**
   * The same for the matches themselves, from every state reached quietly, at any load: if the active flow of the key
   * itself made every match that was left behind, the next hand-over gives no match that the reported flow did not
   * make, whatever happens until then.
   */
  lemma NextMatchesAreOwn(maxFlows: nat, steps: seq<Step<set<string>>>, more: seq<Step<set<string>>>, k: FlowKey,
                          cap: nat, matches: set<string>)
    requires LegalRun(maxFlows, Init<set<string>>(), steps) && QuietRun(Init<set<string>>(), steps, k)
    requires var s := RunFrom(Init<set<string>>(), steps);
             && k !in s.waiting && AllOf(Left(s, k)) <= AllOf(Own(s, k))
             && NextHandOver(maxFlows, s, more, k) && MayHandOver(RunFrom(s, more).trace, k, cap, matches)
    ensures var t := RunFrom(RunFrom(Init<set<string>>(), steps), more);
            k in t.waiting && matches <= AllOf(t.waiting[k].own)
  {
    hide *;
    var s := RunFrom(Init<set<string>>(), steps);
    HandedNext(maxFlows, steps, more, k);
    HandedMatches(RunFrom(s, more).trace, k, cap, matches, Left(s, k), RunFrom(s, more).waiting[k].own);
    OwnGrows(maxFlows, s, more, k);
  }

  /** And only if: between two packets, while the key's matches fit, a foreign match left behind may be handed over. */
  lemma NextMatchesAreOwnIff(maxFlows: nat, steps: seq<Step<set<string>>>, k: FlowKey, cap: nat)
    requires LegalRun(maxFlows, Init<set<string>>(), steps) && QuietRun(Init<set<string>>(), steps, k)
    requires var s := RunFrom(Init<set<string>>(), steps);
             k !in s.waiting && s.inflight == [] && Fits(s.trace, k, cap)
    ensures var s := RunFrom(Init<set<string>>(), steps);
            (forall more, matches | NextHandOver(maxFlows, s, more, k)
                                    && MayHandOver(RunFrom(s, more).trace, k, cap, matches) ::
               matches <= AllOf(RunFrom(s, more).waiting[k].own))
            <==> AllOf(Left(s, k)) <= AllOf(Own(s, k))
  {
    hide *;
    var s := RunFrom(Init<set<string>>(), steps);
    if AllOf(Left(s, k)) <= AllOf(Own(s, k)) {
      forall more, matches | NextHandOver(maxFlows, s, more, k)
                             && MayHandOver(RunFrom(s, more).trace, k, cap, matches)
        ensures k in RunFrom(s, more).waiting && matches <= AllOf(RunFrom(s, more).waiting[k].own)
      {
        NextMatchesAreOwn(maxFlows, steps, more, k, cap, matches);
      }
    } else {
      var more := NextHandOverExists(maxFlows, s, k);
      var t := RunFrom(s, more);
      HandedNext(maxFlows, steps, more, k);
      OnlyPopsKeeps(s.trace, t.trace, k, cap);
      AllMayBeHandedOver(t.trace, k, cap);
      HandedMatches(t.trace, k, cap, Since(t.trace, k), Left(s, k), t.waiting[k].own);
    }
  }

  /* ---- fingerprints: the last one counts ---- */

  lemma {:induction false} LastIsStored<V>(trace: Trace<FlowKey, V>, k: FlowKey)
    ensures LastValue(trace, k).None? <==> Stored(trace, k) == multiset{}
    ensures LastValue(trace, k).Some? ==> LastValue(trace, k).value in Stored(trace, k)
  {
    if trace != [] {
      LastIsStored(trace[..|trace| - 1], k);
    }
  }

  lemma {:induction false} NothingStoredWhenNotLive<V>(trace: Trace<FlowKey, V>, k: FlowKey)
    requires k !in Live(trace)
    ensures Stored(trace, k) == multiset{}
  {
    if trace != [] && trace[|trace| - 1].key != k {
      NothingStoredWhenNotLive(trace[..|trace| - 1], k);
    }
  }

  /** The fingerprint handed over is the flow's own or one left behind; below the cap there is one if any was stored. */
  lemma HandedPrint<V>(trace: Trace<FlowKey, V>, k: FlowKey, cap: nat, print_: Option<V>, left: multiset<V>,
                       own: multiset<V>)
    requires Stored(trace, k) == left + own
    requires print_ == if Alive(trace, k, cap) then LastValue(trace, k) else None
    ensures print_.Some? ==> print_.value in left + own
    ensures BelowCap(trace, cap) ==> (print_.None? <==> left + own == multiset{})
  {
    hide Alive, LastValue, Stored, BelowCap, Live;
    LastIsStored(trace, k);
    if BelowCap(trace, cap) {
      NobodyEvicted(trace, k, cap);
      if k !in Live(trace) {
        NothingStoredWhenNotLive(trace, k);
      }
    }
  }

  /* ---- what quiet excludes ---- */

  ghost predicate OnlyStores<V>(steps: seq<Step<V>>) {
    forall i | 0 <= i < |steps| :: steps[i].Store?
  }

  /** While workers only store, a key of which nothing is under way keeps what it has. */
  lemma {:induction false} StoresKeep<V>(maxFlows: nat, s: State<V>, more: seq<Step<V>>, k: FlowKey)
    requires LegalRun(maxFlows, s, more) && OnlyStores(more) && Pend(s.inflight, k) == multiset{}
    ensures var t := RunFrom(s, more);
            Stored(t.trace, k) == Stored(s.trace, k) && Pend(t.inflight, k) == multiset{} && t.waiting == s.waiting
  {
    if more != [] {
      hide Stored, Pend;
      var before, i := more[..|more| - 1], more[|more| - 1].worker;
      var t := RunFrom(s, before);
      StoresKeep(maxFlows, s, before, k);
      var p := t.inflight[i];
      StoredNext(t.trace, Add(p.key, p.value), k);
      PendWithout(t.inflight, i, k, p.value);
      NoneLeft(t.inflight, i, k);
    }
  }

  lemma NoneLeft<V>(inflight: seq<Pending<V>>, i: nat, k: FlowKey)
    requires i < |inflight| && Pend(inflight, k) == multiset{}
    ensures Pend(inflight[..i] + inflight[i + 1..], k) == multiset{}
  {
    hide Pend;
    var rest := Pend(inflight[..i] + inflight[i + 1..], k);
    if rest != multiset{} {
      var v :| v in rest;
      PendWithout(inflight, i, k, v);
    }
  }

  lemma {:induction false} SomePending<V>(inflight: seq<Pending<V>>, k: FlowKey) returns (i: nat)
    requires Pend(inflight, k) != multiset{}
    ensures i < |inflight| && inflight[i].key == k
  {
    var n := |inflight| - 1;
    if inflight[n].key == k {
      i := n;
    } else {
      i := SomePending(inflight[..n], k);
    }
  }

  /**
   * A reported flow gets exactly its own evidence in whatever order the workers and the flusher go on if and only if
   * that is what is stored and no worker is about to store more: quiet makes the hand-over independent of the order.
   */
  lemma AnyOrderGivesOwnIff<V(!new)>(maxFlows: nat, s: State<V>, k: FlowKey)
    requires k in s.waiting
    ensures (forall more: seq<Step<V>> | LegalRun(maxFlows, s, more) && OnlyStores(more) ::
               Stored(RunFrom(s, more).trace, k) == s.waiting[k].own)
            <==> Stored(s.trace, k) == s.waiting[k].own && Pend(s.inflight, k) == multiset{}
  {
    hide Stored, Pend;
    if Pend(s.inflight, k) == multiset{} {
      forall more: seq<Step<V>> | LegalRun(maxFlows, s, more) && OnlyStores(more)
        ensures Stored(RunFrom(s, more).trace, k) == Stored(s.trace, k)
      {
        StoresKeep(maxFlows, s, more, k);
      }
      assert LegalRun(maxFlows, s, []) && OnlyStores<V>([]) && RunFrom(s, []) == s;
    } else {
      var i := SomePending(s.inflight, k);
      OneStore(maxFlows, s, i);
      StoredNext(s.trace, Add(k, s.inflight[i].value), k);
      MoreThanOwn(multiset{s.inflight[i].value}, Stored(s.trace, k));
      assert multiset{s.inflight[i].value} + Stored(s.trace, k) == Stored(s.trace, k) + multiset{s.inflight[i].value};
      assert LegalRun(maxFlows, s, []) && OnlyStores<V>([]) && RunFrom(s, []) == s;
    }
  }

  lemma OneStore<V>(maxFlows: nat, s: State<V>, i: nat)
    requires i < |s.inflight|
    ensures LegalRun(maxFlows, s, [Store(i)]) && OnlyStores<V>([Store(i)])
    ensures RunFrom(s, [Store(i)]).trace == s.trace + [Add(s.inflight[i].key, s.inflight[i].value)]
  {
    var more: seq<Step<V>> := [Store(i)];
    assert more[..0] == [];
    assert LegalRun(maxFlows, s, more[..0]) && RunFrom(s, more[..0]) == s;
    assert LegalRun(maxFlows, s, more);
  }

  /* ---- the ways to fail ---- */

  lemma PlayNext<V>(maxFlows: nat, steps: seq<Step<V>>, e: Step<V>)
    requires LegalRun(maxFlows, Init<V>(), steps) && Legal(maxFlows, RunFrom(Init<V>(), steps), e)
    ensures LegalRun(maxFlows, Init<V>(), steps + [e])
    ensures RunFrom(Init<V>(), steps + [e]) == Apply(RunFrom(Init<V>(), steps), e)
    ensures forall k :: QuietRun(Init<V>(), steps, k) && Quiet(Apply(RunFrom(Init<V>(), steps), e), k) ==>
              QuietRun(Init<V>(), steps + [e], k)
  {
    hide Quiet, Apply, Legal;
    assert (steps + [e])[..|steps|] == steps;
  }

  lemma PlayNone<V>(maxFlows: nat)
    ensures LegalRun(maxFlows, Init<V>(), []) && RunFrom(Init<V>(), []) == Init<V>()
    ensures forall k :: QuietRun(Init<V>(), [], k)
  {
  }

  /** A forward packet that evicts nothing. */
  lemma PlainPacket<V>(s: State<V>, k: FlowKey, value: Option<V>)
    requires s.left == map[] && (k in s.flows || k.Reverse() !in s.flows)
    ensures var bag := if value.Some? then multiset{value.value} else multiset{};
            var n := if k in s.flows then s.flows[k].packets else 0;
            Apply(s, Receive(k, value, None))
            == State(s.flows[k := Flow(1 + n, Own(s, k) + bag)],
                     if value.Some? then s.inflight + [Pending(k, value.value)] else s.inflight,
                     s.waiting, map[], s.trace)
  {
    hide Own;
    assert s.flows - {} == s.flows;
    assert Leave(s, {}) == map[];
    assert value.Some? ==> value.value in multiset{value.value};
  }

  /** One packet with evidence, stored. */
  lemma FirstPacket<V>(maxFlows: nat, k: FlowKey, v: V) returns (steps: seq<Step<V>>)
    ensures LegalRun(maxFlows, Init<V>(), steps) && QuietRun(Init<V>(), steps, k)
    ensures RunFrom(Init<V>(), steps)
         == State(map[k := Flow(1, multiset{v})], [], map[], map[], [Add(k, v)])
  {
    hide LegalRun, QuietRun, RunFrom;
    var first := Receive(k, Some(v), None);
    PlayNone<V>(maxFlows);
    PlayNext(maxFlows, [], first);
    PlainPacket(Init<V>(), k, Some(v));
    assert multiset{} + multiset{v} == multiset{v};
    assert Apply(Init<V>(), first) == State(map[k := Flow(1, multiset{v})], [Pending(k, v)], map[], map[], []);
    PlayNext(maxFlows, [] + [first], Store(0));
    steps := [] + [first] + [Store(0)];
  }

  /** A flow of one packet with evidence that times out is not reported, and leaves its evidence to the next flow. */
  lemma ShortFlowLeavesEvidence<V>(maxFlows: nat, k: FlowKey, v: V) returns (steps: seq<Step<V>>)
    ensures LegalRun(maxFlows, Init<V>(), steps) && QuietRun(Init<V>(), steps, k)
    ensures var s := RunFrom(Init<V>(), steps);
            s.flows == map[] && s.waiting == map[] && s.inflight == [] && Left(s, k) == multiset{v}
  {
    hide LegalRun, QuietRun, RunFrom;
    steps := FirstPacket(maxFlows, k, v);
    PlayNext(maxFlows, steps, Collect({k}));
    steps := steps + [Collect({k})];
  }

  /** So does a flow that a full table evicts. */
  lemma EvictedFlowLeavesEvidence<V>(k: FlowKey, j: FlowKey, v: V) returns (steps: seq<Step<V>>)
    requires j != k && j.Reverse() != k
    ensures LegalRun(1, Init<V>(), steps) && QuietRun(Init<V>(), steps, k)
    ensures var s := RunFrom(Init<V>(), steps);
            s.flows.Keys == {j} && s.waiting == map[] && s.inflight == [] && Left(s, k) == multiset{v}
  {
    hide LegalRun, QuietRun, RunFrom;
    steps := FirstPacket(1, k, v);
    var other := Receive(j, None, Some(k));
    PlayNext(1, steps, other);
    steps := steps + [other];
  }

  /** Two packets of one flow, the second one possibly with evidence that is not stored yet. */
  lemma TwoPackets<V>(maxFlows: nat, k: FlowKey, value: Option<V>) returns (steps: seq<Step<V>>)
    ensures LegalRun(maxFlows, Init<V>(), steps) && QuietRun(Init<V>(), steps, k)
    ensures RunFrom(Init<V>(), steps)
         == State(map[k := Flow(2, if value.Some? then multiset{value.value} else multiset{})],
                  if value.Some? then [Pending(k, value.value)] else [], map[], map[], [])
  {
    hide LegalRun, QuietRun, RunFrom;
    var first, second := Receive(k, None, None), Receive(k, value, None);
    PlayNone<V>(maxFlows);
    PlayNext(maxFlows, [], first);
    PlainPacket(Init<V>(), k, None);
    var none: multiset<V> := multiset{};
    var s1 := State(map[k := Flow(1, none)], [], map[], map[], []);
    assert none + none == none;
    assert Apply(Init<V>(), first) == s1;
    PlainPacket(s1, k, value);
    assert value.Some? ==> none + multiset{value.value} == multiset{value.value};
    PlayNext(maxFlows, [] + [first], second);
    steps := [] + [first] + [second];
  }

  lemma CollectLong<V>(k: FlowKey, flow: Flow<V>, inflight: seq<Pending<V>>)
    requires flow.packets >= 2
    ensures Apply(State(map[k := flow], inflight, map[], map[], []), Collect({k}))
         == State(map[], inflight, map[k := flow], map[], [])
  {
    var s := State(map[k := flow], inflight, map[], map[], []);
    assert Short(s, {k}) == {};
    assert Leave(s, {}) == map[];
  }

  /** A flow of two packets without evidence, reported. */
  lemma Reported<V>(maxFlows: nat, k: FlowKey) returns (steps: seq<Step<V>>)
    ensures LegalRun(maxFlows, Init<V>(), steps) && QuietRun(Init<V>(), steps, k)
    ensures RunFrom(Init<V>(), steps) == State(map[], [], map[k := Flow(2, multiset{})], map[], [])
  {
    hide LegalRun, QuietRun, RunFrom, Apply;
    steps := TwoPackets<V>(maxFlows, k, None);
    CollectLong<V>(k, Flow(2, multiset{}), []);
    PlayNext(maxFlows, steps, Collect({k}));
    steps := steps + [Collect({k})];
  }

  /** Not quiet: a packet between `collect_expired` and the pop gives its evidence to the flow before its own. */
  lemma EarlyPacketIsHandedOver<V>(maxFlows: nat, k: FlowKey, v: V) returns (steps: seq<Step<V>>)
    ensures LegalRun(maxFlows, Init<V>(), steps)
    ensures var s := RunFrom(Init<V>(), steps);
            && k in s.waiting && s.waiting[k].own == multiset{} && Left(s, k) == multiset{}
            && Stored(s.trace, k) == multiset{v} && Own(s, k) == multiset{v}
  {
    hide LegalRun, QuietRun, RunFrom;
    var packet := Receive(k, Some(v), None);
    steps := Reported(maxFlows, k);
    PlayNext(maxFlows, steps, packet);
    PlayNext(maxFlows, steps + [packet], Store(0));
    steps := steps + [packet] + [Store(0)];
    var s := RunFrom(Init<V>(), steps);
    assert s.trace == [] + [Add(k, v)];
    StoredNext([], Add(k, v), k);
  }

  /** A reported flow is popped while evidence of its is still under way, and then stored. */
  lemma PoppedTooEarly<V>(k: FlowKey, v: V)
    ensures var s0 := State(map[], [Pending(k, v)], map[k := Flow(2, multiset{v})], map[], []);
            Apply(Apply(s0, HandOver(k)), Store(0)) == State(map[], [], map[], map[], [Pop(k), Add(k, v)])
  {
    var s0 := State(map[], [Pending(k, v)], map[k := Flow(2, multiset{v})], map[], []);
    var s1 := State(map[], [Pending(k, v)], map[], map[], [Pop(k)]);
    assert Apply(s0, HandOver(k)) == s1;
    assert s1.inflight[..0] + s1.inflight[1..] == [];
  }

  /** Not quiet: a worker that stores after the pop leaves its evidence to the flow after its own. */
  lemma LateStoreIsLeft<V>(maxFlows: nat, k: FlowKey, v: V) returns (steps: seq<Step<V>>)
    ensures LegalRun(maxFlows, Init<V>(), steps)
    ensures var s := RunFrom(Init<V>(), steps);
            && s.flows == map[] && s.waiting == map[] && s.inflight == [] && Left(s, k) == multiset{}
            && Stored(s.trace, k) == multiset{v}
  {
    hide LegalRun, QuietRun, RunFrom, Apply, Stored;
    steps := TwoPackets(maxFlows, k, Some(v));
    CollectLong(k, Flow(2, multiset{v}), [Pending(k, v)]);
    PoppedTooEarly(k, v);
    PlayNext(maxFlows, steps, Collect({k}));
    steps := steps + [Collect({k})];
    PlayNext(maxFlows, steps, HandOver(k));
    HandOverKeepsInflight(RunFrom(Init<V>(), steps), k);
    steps := steps + [HandOver(k)];
    PlayNext(maxFlows, steps, Store(0));
    steps := steps + [Store(0)];
    StoredAfterPop(k, v);
  }

  lemma HandOverKeepsInflight<V>(s: State<V>, k: FlowKey)
    ensures Apply(s, HandOver(k)).inflight == s.inflight
  {
  }

  lemma StoredAfterPop<V>(k: FlowKey, v: V)
    ensures Stored([Pop(k), Add(k, v)], k) == multiset{v}
  {
    hide Stored;
    StoredNext([Pop(k)], Add(k, v), k);
    StoredNext<V>([], Pop(k), k);
    assert [Pop(k)] + [Add(k, v)] == [Pop(k), Add(k, v)] && [] + [Pop(k)] == [Event<FlowKey, V>.Pop(k)];
    assert multiset{} + multiset{v} == multiset{v};
  }
}
