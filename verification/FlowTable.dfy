/** The flow table and its lazily maintained expiry heap. */
module FlowTable {
  import opened Wrappers
  import opened PyDict
  import opened MinHeap
  import opened FlowRecords

  type Flows = Dict<FlowKey, FlowRecord>

  /** Some heap entry for `k` is due at time `t`. */
  ghost predicate DueAt(heap: Heap<FlowKey>, k: FlowKey, t: real) {
    exists e :: e <= t && (e, k) in Elements(heap)
  }

  ghost predicate HasEntry(heap: Heap<FlowKey>, k: FlowKey) {
    exists e :: (e, k) in Elements(heap)
  }

  /** No flow is stored under both of its directions. */
  ghost predicate KeysOk(flows: Flows) {
    flows.Valid() && forall j, k | j in flows.vals && k in flows.vals && Answers(j, k) :: j == k
  }

  /** Every record cuts its packets at the table's gap. */
  ghost predicate GapsAre(flows: Flows, gap: real) {
    forall k | k in flows.vals :: flows.vals[k].gap == gap
  }

  ghost predicate Indexed(keys: set<FlowKey>, heap: Heap<FlowKey>) {
    IsHeap(heap) && forall k | k in keys :: HasEntry(heap, k)
  }

  /** Every record belongs to its key and has been used. */
  ghost predicate RecordsOk(flows: Flows)
    reads set k | k in flows.vals :: flows.vals[k]
  {
    forall k | k in flows.vals :: flows.vals[k].key == k && flows.vals[k].Valid() && flows.vals[k].trace != []
  }

  ghost predicate TableOk(flows: Flows, heap: Heap<FlowKey>)
    reads set k | k in flows.vals :: flows.vals[k]
  {
    KeysOk(flows) && Indexed(flows.vals.Keys, heap) && RecordsOk(flows)
  }

  /** The packets of every active flow. */
  ghost function TracesOf(flows: Flows): map<FlowKey, seq<Packet>>
    reads set k | k in flows.vals :: flows.vals[k]
  {
    map k | k in flows.vals :: flows.vals[k].trace
  }

  /** Every flow has a heap entry no later than its last packet. */
  ghost predicate TimelyOn(flows: Flows, heap: Heap<FlowKey>)
    reads set k | k in flows.vals :: flows.vals[k]
  {
    forall k | k in flows.vals :: DueAt(heap, k, flows.vals[k].lastTime)
  }

  lemma RemoveKeepsKeys(flows: Flows, k: FlowKey)
    requires KeysOk(flows)
    ensures KeysOk(flows.Remove(k))
    ensures k in flows.vals ==> |flows.Remove(k).keys| == |flows.keys| - 1
  {
    WithoutProperties(flows.keys, k);
  }

  lemma PutKeepsKeys(flows: Flows, k: FlowKey, rec: FlowRecord)
    requires KeysOk(flows) && k !in flows.vals && k.Reverse() !in flows.vals
    ensures KeysOk(flows.Put(k, rec)) && |flows.Put(k, rec).keys| == |flows.keys| + 1
  {
    forall j | j in flows.vals ensures !Answers(j, k) && !Answers(k, j) {
      ReverseAnswers(j, k);
      ReverseAnswers(k, j);
    }
  }

  lemma CompactKeepsIndex(keys: set<FlowKey>, heap: Heap<FlowKey>)
    requires Indexed(keys, heap)
    ensures Indexed(keys, Compact(heap, keys))
    ensures forall k, t | k in keys && DueAt(heap, k, t) :: DueAt(Compact(heap, keys), k, t)
    ensures forall k, t | DueAt(Compact(heap, keys), k, t) :: DueAt(heap, k, t)
  {
    hide IsHeap, Compact, Elements;
    CompactEntries(heap, keys, 0.0, FlowKey("", "", 0, 0, 0));
    forall k, e | k in keys && (e, k) in Elements(heap) ensures (e, k) in Elements(Compact(heap, keys)) {
      CompactEntries(heap, keys, e, k);
    }
    forall k, t | DueAt(Compact(heap, keys), k, t) ensures DueAt(heap, k, t) {
      var e :| e <= t && (e, k) in Elements(Compact(heap, keys));
      CompactEntries(heap, keys, e, k);
      assert (e, k) in Elements(heap);
    }
    forall k | k in keys ensures HasEntry(Compact(heap, keys), k) {
      var e :| (e, k) in Elements(heap);
      assert (e, k) in Elements(Compact(heap, keys));
    }
    forall k, t | k in keys && DueAt(heap, k, t) ensures DueAt(Compact(heap, keys), k, t) {
      var e :| e <= t && (e, k) in Elements(heap);
      assert (e, k) in Elements(Compact(heap, keys));
    }
  }

  /** The index gained at most an entry for `k` at time `t`. */
  ghost predicate NothingElseDue(before: Heap<FlowKey>, after: Heap<FlowKey>, k: FlowKey, t: real) {
    forall j, u | DueAt(after, j, u) :: DueAt(before, j, u) || (j == k && t <= u)
  }

  lemma InsertKeepsIndex(keys: set<FlowKey>, heap: Heap<FlowKey>, t: real, k: FlowKey)
    requires Indexed(keys, heap)
    ensures Indexed(keys + {k}, Insert(heap, t, k))
    ensures DueAt(Insert(heap, t, k), k, t)
    ensures forall j, u | DueAt(heap, j, u) :: DueAt(Insert(heap, t, k), j, u)
    ensures NothingElseDue(heap, Insert(heap, t, k), k, t)
  {
    hide IsHeap, Insert, Elements;
    InsertAddsEntry(heap, t, k);
    var heap' := Insert(heap, t, k);
    assert (t, k) in Elements(heap');
    forall j | j in keys + {k} ensures HasEntry(heap', j) {
      if j != k {
        var e :| (e, j) in Elements(heap);
        assert (e, j) in Elements(heap');
      }
    }
    forall j, u | DueAt(heap, j, u) ensures DueAt(heap', j, u) {
      var e :| e <= u && (e, j) in Elements(heap);
      assert (e, j) in Elements(heap');
    }
  }

  lemma NotBoth(flows: Flows, a: FlowKey, b: FlowKey)
    requires KeysOk(flows) && Answers(a, b)
    ensures a in flows.vals && b in flows.vals ==> a == b
  {
  }

  lemma GapsWithout(was: Flows, later: Flows, gap: real)
    requires GapsAre(was, gap) && forall k | k in later.vals :: k in was.vals && later.vals[k] == was.vals[k]
    ensures GapsAre(later, gap)
  {
  }

  /** What a plain scan finds and what the index knows of it. */
  lemma DueOfSilent(flows: Flows, heap: Heap<FlowKey>, cutoff: real, last: map<FlowKey, real>)
    requires last == map k | k in flows.vals :: flows.vals[k].lastTime
    ensures SilentAndDue(flows, heap, cutoff) == set k | k in last && last[k] <= cutoff && DueAt(heap, k, cutoff)
    ensures SilentAndDue(flows, heap, cutoff) == Silent(flows, cutoff) <==> AllDue(Silent(flows, cutoff), heap, cutoff)
    ensures TimelyOn(flows, heap) ==> AllDue(Silent(flows, cutoff), heap, cutoff)
  {
    hide DueAt;
    TimelyAllDue(heap, last, cutoff);
  }

  /** Flows that stay, with entries still in time where they were. */
  lemma StaysOk(was: Flows, index: Heap<FlowKey>, later: Flows, heap: Heap<FlowKey>, last: map<FlowKey, real>,
                gap: real)
    requires RecordsOk(was) && GapsAre(was, gap) && last == map k | k in was.vals :: was.vals[k].lastTime
    requires forall k | k in later.vals :: k in was.vals && later.vals[k] == was.vals[k]
    requires forall k | k in later.vals && DueAt(index, k, last[k]) :: DueAt(heap, k, last[k])
    ensures RecordsOk(later) && GapsAre(later, gap) && (TimelyOn(was, index) ==> TimelyOn(later, heap))
  {
    hide DueAt, FlowRecord.Valid;
  }

  lemma ReportedGaps(reported: seq<FlowRecord>, was: Flows, gone: set<FlowKey>, gap: real)
    requires ReportsExactly(reported, was, gone) && GapsAre(was, gap)
    ensures forall r | r in reported :: r.gap == gap
  {
  }

  lemma KeysOkValid(flows: Flows)
    requires KeysOk(flows)
    ensures flows.Valid()
  {
  }

  lemma WithoutTwice(m: map<FlowKey, FlowRecord>, gone: set<FlowKey>, k: FlowKey)
    ensures m - gone - {k} == m - (gone + {k})
  {
  }

  lemma NoKeysLeft(flows: Flows)
    requires KeysOk(flows)
    ensures flows.vals.Keys == {} ==> flows.keys == []
  {
    if flows.keys != [] {
      assert flows.keys[0] in flows.vals;
    }
  }

  lemma TimelyAllDue(heap: Heap<FlowKey>, last: map<FlowKey, real>, cutoff: real)
    ensures (forall k | k in last :: DueAt(heap, k, last[k])) ==>
              forall k | k in last && last[k] <= cutoff :: DueAt(heap, k, cutoff)
  {
    forall k | k in last && last[k] <= cutoff ensures DueAt(heap, k, last[k]) ==> DueAt(heap, k, cutoff) {
      DueLater(heap, k, last[k], cutoff);
    }
  }

  /** What an eviction removes: nothing from an empty table, else the first flow with the earliest start. */
  ghost predicate OldestOnly(flows: Flows, victims: set<FlowKey>)
    reads set k | k in flows.vals :: flows.vals[k]
  {
    if flows.keys == [] then victims == {}
    else exists p | 0 <= p < |flows.keys| :: victims == {flows.keys[p]} && FirstOldest(flows, p)
  }

  /** The first key, in insertion order, with the earliest start. */
  ghost predicate FirstOldest(flows: Flows, p: nat)
    reads set k | k in flows.vals :: flows.vals[k]
  {
    && p < |flows.keys| && (forall k | k in flows.keys :: k in flows.vals)
    && (forall j | 0 <= j < p :: flows.vals[flows.keys[j]].startTime > flows.vals[flows.keys[p]].startTime)
    && (forall j | p < j < |flows.keys| :: flows.vals[flows.keys[j]].startTime >= flows.vals[flows.keys[p]].startTime)
  }

  lemma NobodyOldest(flows: Flows)
    ensures flows.keys == [] ==> OldestOnly(flows, {})
  {
  }

  lemma OldestIs(flows: Flows, p: nat)
    requires FirstOldest(flows, p)
    ensures OldestOnly(flows, {flows.keys[p]}) && flows.keys[p] in flows.vals
  {
  }

  method OldestKey(flows: Flows) returns (oldest: FlowKey, ghost p: nat)
    requires flows.Valid() && flows.keys != []
    ensures FirstOldest(flows, p) && oldest == flows.keys[p]
  {
    oldest, p := flows.keys[0], 0;
    for i := 1 to |flows.keys|
      invariant p < i && oldest == flows.keys[p]
      invariant forall j | 0 <= j < p :: flows.vals[flows.keys[j]].startTime > flows.vals[oldest].startTime
      invariant forall j | p < j < i :: flows.vals[flows.keys[j]].startTime >= flows.vals[oldest].startTime
    {
      if flows.vals[flows.keys[i]].startTime < flows.vals[oldest].startTime {
        oldest, p := flows.keys[i], i;
      }
    }
  }

  lemma DueLater(heap: Heap<FlowKey>, k: FlowKey, t: real, later: real)
    ensures DueAt(heap, k, t) && t <= later ==> DueAt(heap, k, later)
  {
  }

  /** The flows whose last packet is not after `cutoff`: what a plain scan of the table would expire. */
  ghost function Silent(flows: Flows, cutoff: real): set<FlowKey>
    reads set k | k in flows.vals :: flows.vals[k]
  {
    set k | k in flows.vals && flows.vals[k].lastTime <= cutoff
  }

  ghost function SilentAndDue(flows: Flows, heap: Heap<FlowKey>, cutoff: real): set<FlowKey>
    reads set k | k in flows.vals :: flows.vals[k]
  {
    set k | k in flows.vals && flows.vals[k].lastTime <= cutoff && DueAt(heap, k, cutoff)
  }

  ghost predicate AllDue(keys: set<FlowKey>, heap: Heap<FlowKey>, cutoff: real) {
    forall k | k in keys :: DueAt(heap, k, cutoff)
  }

  /** The reported records are those of the removed flows with at least two packets, each once. */
  ghost predicate ReportsExactly(reported: seq<FlowRecord>, was: Flows, gone: set<FlowKey>)
    reads set k | k in was.vals :: was.vals[k]
  {
    && NoDuplicateRecords(reported)
    && (forall r | r in reported :: r.key in gone && r.key in was.vals && was.vals[r.key] == r && |r.trace| >= 2)
    && (forall k | k in gone && k in was.vals && |was.vals[k].trace| >= 2 :: was.vals[k] in reported)
  }

  ghost predicate NoDuplicateRecords(s: seq<FlowRecord>) {
    forall i, j | 0 <= i < j < |s| :: s[i] != s[j]
  }

  lemma ReportsNothing(was: Flows)
    ensures ReportsExactly([], was, {})
  {
  }

  lemma ReportsOneMore(reported: seq<FlowRecord>, was: Flows, gone: set<FlowKey>, k: FlowKey, rec: FlowRecord)
    requires ReportsExactly(reported, was, gone)
    requires k in was.vals && k !in gone && was.vals[k] == rec && rec.key == k && rec.Valid()
    ensures ReportsExactly(if rec.Reportable() then reported + [rec] else reported, was, gone + {k})
  {
    hide FlowRecord.Valid;
    assert rec.Reportable() <==> |rec.trace| >= 2;
    assert rec !in reported;
    var after := if rec.Reportable() then reported + [rec] else reported;
    assert forall r | r in after :: r in reported || r == rec;
  }

  /* ---- the scan loop, on values: remaining keys, their last packets, and the heap ---- */

  /**
   * The index at the start was `index`. A removed key is silent and had a due entry; a remaining silent key that
   * had one still has one; every due entry is an old one; and an entry that was in time is replaced in time.
   */
  ghost predicate Scan(index: Heap<FlowKey>, heap: Heap<FlowKey>, keys: set<FlowKey>, last: map<FlowKey, real>,
                       cutoff: real) {
    && Indexed(keys, heap) && keys <= last.Keys
    && (forall k | k in last && k !in keys :: last[k] <= cutoff && DueAt(index, k, cutoff))
    && (forall k | k in keys && last[k] <= cutoff && DueAt(index, k, cutoff) :: DueAt(heap, k, cutoff))
    && (forall k | DueAt(heap, k, cutoff) :: DueAt(index, k, cutoff))
    && (forall k | k in keys && DueAt(index, k, last[k]) :: DueAt(heap, k, last[k]))
  }

  lemma ScanStart(keys: set<FlowKey>, heap: Heap<FlowKey>, last: map<FlowKey, real>, cutoff: real)
    requires Indexed(keys, heap) && keys == last.Keys
    ensures Scan(heap, heap, keys, last, cutoff)
  {
  }

  /** Popping the root takes one entry away, and only from its own key. */
  lemma PopEntries(heap: Heap<FlowKey>)
    requires heap.Node?
    ensures IsHeap(heap) ==> IsHeap(DeleteMin(heap))
    ensures forall k, t | k != heap.key && DueAt(heap, k, t) :: DueAt(DeleteMin(heap), k, t)
    ensures forall k, t | DueAt(DeleteMin(heap), k, t) :: DueAt(heap, k, t)
    ensures forall k | k != heap.key && HasEntry(heap, k) :: HasEntry(DeleteMin(heap), k)
  {
    hide DeleteMin, Elements, IsHeap;
    DeleteMinRemovesRoot(heap);
    var rest := DeleteMin(heap);
    assert forall e, j :: (e, j) in Elements(rest) ==> (e, j) in Elements(heap);
    assert forall e, j | j != heap.key :: (e, j) in Elements(heap) ==> (e, j) in Elements(rest);
  }

  lemma PushEntries(heap: Heap<FlowKey>, t: real, k: FlowKey)
    ensures IsHeap(heap) ==> IsHeap(Insert(heap, t, k))
    ensures DueAt(Insert(heap, t, k), k, t) && HasEntry(Insert(heap, t, k), k)
    ensures forall j, u | DueAt(heap, j, u) :: DueAt(Insert(heap, t, k), j, u)
    ensures forall j, u | DueAt(Insert(heap, t, k), j, u) :: DueAt(heap, j, u) || (j == k && t <= u)
    ensures forall j | HasEntry(heap, j) :: HasEntry(Insert(heap, t, k), j)
  {
    hide Insert, Elements, IsHeap;
    InsertAddsEntry(heap, t, k);
    assert (t, k) in Elements(Insert(heap, t, k));
    assert forall e, i :: (e, i) in Elements(Insert(heap, t, k)) <==> (e, i) in Elements(heap) || (e == t && i == k);
  }

  lemma ScanStale(index: Heap<FlowKey>, heap: Heap<FlowKey>, keys: set<FlowKey>, last: map<FlowKey, real>, cutoff: real)
    requires Scan(index, heap, keys, last, cutoff) && heap.Node? && heap.key !in keys
    ensures Scan(index, DeleteMin(heap), keys, last, cutoff)
  {
    hide DeleteMin, DueAt, HasEntry, IsHeap;
    PopEntries(heap);
  }

  lemma RootEntry(heap: Heap<FlowKey>, t: real)
    requires heap.Node? && heap.time <= t
    ensures DueAt(heap, heap.key, t)
  {
    assert (heap.time, heap.key) in Elements(heap);
  }

  lemma ScanExpire(index: Heap<FlowKey>, heap: Heap<FlowKey>, keys: set<FlowKey>, last: map<FlowKey, real>,
                   cutoff: real)
    requires Scan(index, heap, keys, last, cutoff)
    requires heap.Node? && heap.time <= cutoff && heap.key in keys && last[heap.key] <= cutoff
    ensures Scan(index, DeleteMin(heap), keys - {heap.key}, last, cutoff)
  {
    hide DeleteMin, DueAt, HasEntry, IsHeap;
    PopEntries(heap);
    RootEntry(heap, cutoff);
  }

  lemma ScanRefresh(index: Heap<FlowKey>, heap: Heap<FlowKey>, keys: set<FlowKey>, last: map<FlowKey, real>,
                    cutoff: real)
    requires Scan(index, heap, keys, last, cutoff)
    requires heap.Node? && heap.time <= cutoff && heap.key in keys && last[heap.key] > cutoff
    ensures Scan(index, Insert(DeleteMin(heap), last[heap.key], heap.key), keys, last, cutoff)
  {
    hide DeleteMin, Insert, DueAt, HasEntry, IsHeap;
    PopEntries(heap);
    PushEntries(DeleteMin(heap), last[heap.key], heap.key);
  }

  /** When no due entry is left, exactly the silent keys that had one are gone; an empty heap means an empty table. */
  lemma ScanDone(index: Heap<FlowKey>, heap: Heap<FlowKey>, keys: set<FlowKey>, last: map<FlowKey, real>, cutoff: real)
    requires Scan(index, heap, keys, last, cutoff) && (heap.Node? ==> heap.time > cutoff)
    ensures Indexed(keys, heap)
    ensures forall k | k in last :: k !in keys <==> last[k] <= cutoff && DueAt(index, k, cutoff)
    ensures forall k | k in keys && DueAt(index, k, last[k]) :: DueAt(heap, k, last[k])
    ensures heap.Leaf? ==> keys == {}
  {
    forall k ensures !DueAt(heap, k, cutoff) {
      forall e | (e, k) in Elements(heap) ensures e > cutoff {
        RootIsLeast(heap, e, k);
      }
    }
  }

  lemma DuePops(heap: Heap<FlowKey>, cutoff: real)
    requires heap.Node? && heap.time <= cutoff
    ensures |Due(DeleteMin(heap), cutoff)| < |Due(heap, cutoff)|
  {
    hide Due, DeleteMin, Elements;
    DeleteMinRemovesRoot(heap);
    var root, rest := (heap.time, heap.key), DeleteMin(heap);
    assert root in Elements(heap) by { RootInElements(heap); }
    forall x: (real, FlowKey) ensures Due(rest, cutoff)[x] == (Due(heap, cutoff) - multiset{root})[x] {
      DueEntries(heap, cutoff, x.0, x.1);
      DueEntries(rest, cutoff, x.0, x.1);
    }
    assert Due(rest, cutoff) == Due(heap, cutoff) - multiset{root};
    DueEntries(heap, cutoff, heap.time, heap.key);
  }

  lemma RootInElements(heap: Heap<FlowKey>)
    requires heap.Node?
    ensures (heap.time, heap.key) in Elements(heap)
  {
  }

  lemma DuePushes(heap: Heap<FlowKey>, t: real, k: FlowKey, cutoff: real)
    requires t > cutoff
    ensures Due(Insert(heap, t, k), cutoff) == Due(heap, cutoff)
  {
    hide Due, Insert, Elements;
    InsertAddsEntry(heap, t, k);
    forall x: (real, FlowKey) ensures Due(Insert(heap, t, k), cutoff)[x] == Due(heap, cutoff)[x] {
      DueEntries(heap, cutoff, x.0, x.1);
      DueEntries(Insert(heap, t, k), cutoff, x.0, x.1);
    }
  }

  /** A new flow and its heap entry. */
  lemma PutKeepsTable(flows: Flows, heap: Heap<FlowKey>, k: FlowKey, rec: FlowRecord, ts: real)
    requires TableOk(flows, heap) && k !in flows.vals && k.Reverse() !in flows.vals
    requires rec.Valid() && rec.key == k && rec.trace != [] && rec.lastTime == ts
    ensures TableOk(flows.Put(k, rec), Insert(heap, ts, k)) && |flows.Put(k, rec).keys| == |flows.keys| + 1
    ensures TracesOf(flows.Put(k, rec)) == TracesOf(flows)[k := rec.trace]
    ensures TimelyOn(flows, heap) ==> TimelyOn(flows.Put(k, rec), Insert(heap, ts, k))
    ensures NothingElseDue(heap, Insert(heap, ts, k), k, ts)
  {
    hide FlowRecord.Valid, KeysOk, Indexed, DueAt, Insert, NothingElseDue;
    PutKeepsKeys(flows, k, rec);
    InsertKeepsIndex(flows.vals.Keys, heap, ts, k);
    assert flows.Put(k, rec).vals.Keys == flows.vals.Keys + {k};
  }

  /** A flow leaves, and the index is rebuilt for the others. */
  lemma RemoveKeepsTable(flows: Flows, heap: Heap<FlowKey>, k: FlowKey)
    requires TableOk(flows, heap) && k in flows.vals
    ensures var kept := flows.Remove(k);
            && TableOk(kept, Compact(heap, kept.vals.Keys)) && |kept.keys| == |flows.keys| - 1
            && TracesOf(kept) == TracesOf(flows) - {k}
            && (TimelyOn(flows, heap) ==> TimelyOn(kept, Compact(heap, kept.vals.Keys)))
            && forall j, t | DueAt(Compact(heap, kept.vals.Keys), j, t) :: DueAt(heap, j, t)
  {
    hide FlowRecord.Valid, KeysOk, DueAt, HasEntry, IsHeap;
    RemoveKeepsKeys(flows, k);
    CompactKeepsIndex(flows.Remove(k).vals.Keys, heap);
  }

  class FlowExtractor {
    const timeout: real
    const gap: real
    const maxFlows: nat
    var flows: Flows
    var heap: Heap<FlowKey>

    ghost predicate Valid()
      reads this, set k | k in flows.vals :: flows.vals[k]
    {
      && TableOk(flows, heap) && GapsAre(flows, gap)
      && |flows.keys| <= (if maxFlows == 0 then 1 else maxFlows)
    }

    ghost predicate Timely()
      reads this, set k | k in flows.vals :: flows.vals[k]
    {
      TimelyOn(flows, heap)
    }

    ghost function Traces(): map<FlowKey, seq<Packet>>
      reads this, set k | k in flows.vals :: flows.vals[k]
    {
      TracesOf(flows)
    }

    constructor (timeout: real, gap: real, maxFlows: nat)
      ensures Valid() && Timely() && Traces() == map[] && flows == Empty() && heap == Leaf
      ensures this.timeout == timeout && this.gap == gap && this.maxFlows == maxFlows
    {
      this.timeout, this.gap, this.maxFlows := timeout, gap, maxFlows;
      flows, heap := Empty(), Leaf;
    }

    /** `_evict_oldest` */
    method EvictOldest() returns (ghost victims: set<FlowKey>)
      requires TableOk(flows, heap)
      modifies this`flows, this`heap
      ensures TableOk(flows, heap)
      ensures flows.vals == old(flows.vals) - victims && |flows.keys| == |old(flows.keys)| - |victims|
      ensures OldestOnly(old(flows), victims) && |victims| == (if old(flows.keys) != [] then 1 else 0)
      ensures victims <= old(flows.vals.Keys)
      ensures Traces() == old(Traces()) - victims && (old(Timely()) ==> Timely())
      ensures forall k, t | DueAt(heap, k, t) :: DueAt(old(heap), k, t)
    {
      hide FlowRecord.Valid, KeysOk, Indexed, RecordsOk, DueAt, TracesOf, TimelyOn, Compact, OldestOnly, FirstOldest;
      victims := {};
      NobodyOldest(flows);
      if flows.keys == [] {
        return;
      }
      KeysOkValid(flows);
      ghost var p: nat;
      var oldest: FlowKey;
      oldest, p := OldestKey(flows);
      victims := {oldest};
      OldestIs(flows, p);
      RemoveKeepsTable(flows, heap, oldest);
      flows := flows.Remove(oldest);
      heap := Compact(heap, flows.vals.Keys);
    }

    /** `process_packet` for an IP packet: which flow it joins, and in which direction. */
    method ProcessPacket(fwd: FlowKey, len: nat, ts: real)
        returns (key: FlowKey, forward: bool, ghost victims: set<FlowKey>)
      requires Valid()
      modifies this`flows, this`heap, set k | k in flows.vals :: flows.vals[k]
      ensures Valid()
      ensures if fwd in old(flows.vals) then key == fwd && forward
              else if fwd.Reverse() in old(flows.vals) then key == fwd.Reverse() && !forward
              else key == fwd && forward
      ensures fwd !in old(flows.vals) ==>
                (!forward <==> exists k :: k in old(flows.vals) && Answers(k, fwd))
                && (!forward ==> key in old(flows.vals) && Answers(key, fwd))
      ensures key in old(flows.vals) ==>
                victims == {} && Traces() == old(Traces())[key := old(Traces())[key] + [Packet(ts, len, forward)]]
      ensures key !in old(flows.vals) ==> Traces() == (old(Traces()) - victims)[key := [Packet(ts, len, forward)]]
      ensures forall j | j in flows.vals ::
                (j in old(flows.vals) && flows.vals[j] == old(flows.vals)[j]) || fresh(flows.vals[j])
      ensures if key in old(flows.vals) then heap == old(heap) else NothingElseDue(old(heap), heap, key, ts)
      ensures key !in old(flows.vals) ==>
                if |old(flows.keys)| >= maxFlows then old(OldestOnly(flows, victims)) else victims == {}
      ensures victims <= old(flows.vals.Keys)
      ensures |victims| == if key !in old(flows.vals) && |old(flows.keys)| >= maxFlows && old(flows.keys) != []
                           then 1 else 0
      ensures old(Timely()) && (key in old(flows.vals) ==> old(flows.vals[key].lastTime) <= ts) ==> Timely()
    {
      hide FlowRecord.Valid, KeysOk, Indexed, DueAt, RecordsOk, OldestOnly, TracesOf, TimelyOn;
      victims := {};
      ReverseAnswers(fwd.Reverse(), fwd);
      forall k | k in flows.vals && Answers(k, fwd) ensures k == fwd.Reverse() {
        ReverseAnswers(k, fwd);
      }
      if fwd in flows.vals {
        key, forward := fwd, true;
        AddTo(fwd, len, ts, true);
      } else if fwd.Reverse() in flows.vals {
        key, forward := fwd.Reverse(), false;
        AddTo(key, len, ts, false);
      } else {
        key, forward := fwd, true;
        victims := AddFlow(fwd, len, ts);
      }
    }

    /** The branch of `process_packet` for a packet that belongs to no active flow. */
    method AddFlow(k: FlowKey, len: nat, ts: real) returns (ghost victims: set<FlowKey>)
      requires Valid() && k !in flows.vals && k.Reverse() !in flows.vals
      modifies this`flows, this`heap
      ensures Valid() && k in flows.vals && fresh(flows.vals[k])
      ensures Traces() == (old(Traces()) - victims)[k := [Packet(ts, len, true)]]
      ensures forall j | j in flows.vals && j != k :: j in old(flows.vals) && flows.vals[j] == old(flows.vals)[j]
      ensures NothingElseDue(old(heap), heap, k, ts) && (old(Timely()) ==> Timely())
      ensures if |old(flows.keys)| >= maxFlows then old(OldestOnly(flows, victims)) else victims == {}
      ensures |victims| == (if |old(flows.keys)| >= maxFlows && old(flows.keys) != [] then 1 else 0)
      ensures victims <= old(flows.vals.Keys)
    {
      hide FlowRecord.Valid, TableOk, DueAt, OldestOnly, TracesOf, TimelyOn;
      victims := {};
      if |flows.keys| >= maxFlows {
        victims := EvictOldest();
      }
      AddNew(k, len, ts);
    }

    method AddTo(k: FlowKey, len: nat, ts: real, forward: bool)
      requires TableOk(flows, heap) && k in flows.vals
      modifies flows.vals[k]
      ensures TableOk(flows, heap)
      ensures Traces() == old(Traces())[k := old(Traces())[k] + [Packet(ts, len, forward)]]
      ensures old(Timely()) && old(flows.vals[k].lastTime) <= ts ==> Timely()
    {
      hide FlowRecord.Valid, KeysOk, Indexed, DueAt;
      DueLater(heap, k, flows.vals[k].lastTime, ts);
      flows.vals[k].AddPacket(len, ts, forward);
    }

    method AddNew(k: FlowKey, len: nat, ts: real)
      requires TableOk(flows, heap) && k !in flows.vals && k.Reverse() !in flows.vals
      modifies this`flows, this`heap
      ensures TableOk(flows, heap)
      ensures |flows.keys| == |old(flows.keys)| + 1
      ensures Traces() == old(Traces())[k := [Packet(ts, len, true)]]
      ensures old(Timely()) ==> Timely()
      ensures NothingElseDue(old(heap), heap, k, ts)
      ensures forall j | j in flows.vals && j != k :: j in old(flows.vals) && flows.vals[j] == old(flows.vals)[j]
      ensures k in flows.vals && fresh(flows.vals[k]) && flows.vals[k].gap == gap
    {
      hide FlowRecord.Valid, TableOk, TracesOf, TimelyOn, Insert, NothingElseDue;
      var rec := FirstPacket(k, len, ts);
      PutKeepsTable(flows, heap, k, rec, ts);
      flows := flows.Put(k, rec);
      heap := Insert(heap, ts, k);
    }

    method FirstPacket(k: FlowKey, len: nat, ts: real) returns (rec: FlowRecord)
      ensures fresh(rec) && rec.Valid() && rec.key == k && rec.gap == gap
      ensures rec.lastTime == ts && rec.trace == [Packet(ts, len, true)]
    {
      rec := new FlowRecord(k, gap);
      rec.AddPacket(len, ts, true);
    }

    /**
     * `collect_expired`: exactly the silent flows with a due heap entry leave the table, and those with enough
     * packets are reported. That is what a plain scan would remove if and only if every silent flow has such an
     * entry, which timely tables guarantee.
     */
    method CollectExpired(now: real) returns (reported: seq<FlowRecord>, ghost gone: set<FlowKey>)
      requires Valid()
      modifies this`flows, this`heap
      ensures Valid()
      ensures gone == SilentAndDue(old(flows), old(heap), now - timeout)
      ensures flows.vals == old(flows.vals) - gone
      ensures ReportsExactly(reported, old(flows), gone)
      ensures gone == Silent(old(flows), now - timeout)
              <==> AllDue(Silent(old(flows), now - timeout), old(heap), now - timeout)
      ensures old(Timely()) ==> Timely() && gone == Silent(old(flows), now - timeout)
      ensures forall r | r in reported :: r.gap == gap
    {
      hide FlowRecord.Valid, DueAt, KeysOk, Indexed, GapsAre, FlowRecord.Reportable, ReportsExactly;
      hide SilentAndDue, Silent, AllDue, TimelyOn, RecordsOk;
      var cutoff := now - timeout;
      ghost var last := map k | k in flows.vals :: flows.vals[k].lastTime;
      ghost var was, index := flows, heap;
      DueOfSilent(was, index, cutoff, last);
      reported, gone := ExpireLoop(cutoff, last);
      ReportedGaps(reported, was, gone, gap);
      StaysOk(was, index, flows, heap, last, gap);
      if heap.Leaf? && flows.keys != [] {
        // The fallback scan: never reached, because every flow keeps a heap entry.
        assert false;
      }
    }

    /** The heap loop of `collect_expired`. */
    method ExpireLoop(cutoff: real, ghost last: map<FlowKey, real>)
        returns (reported: seq<FlowRecord>, ghost gone: set<FlowKey>)
      requires TableOk(flows, heap)
      requires last == map k | k in flows.vals :: flows.vals[k].lastTime
      modifies this`flows, this`heap
      ensures KeysOk(flows) && |flows.keys| <= |old(flows.keys)| && Indexed(flows.vals.Keys, heap)
      ensures flows.vals == old(flows.vals) - gone
      ensures gone == set k | k in last && last[k] <= cutoff && DueAt(old(heap), k, cutoff)
      ensures ReportsExactly(reported, old(flows), gone)
      ensures forall k | k in flows.vals && DueAt(old(heap), k, last[k]) :: DueAt(heap, k, last[k])
      ensures heap.Leaf? ==> flows.keys == []
    {
      hide FlowRecord.Valid, Scan, DueAt, KeysOk, Due, IsHeap, FlowRecord.Reportable, ReportsExactly;
      ghost var was, index := flows, heap;
      reported, gone := [], {};
      ScanStart(flows.vals.Keys, heap, last, cutoff);
      ReportsNothing(was);
      while heap.Node? && heap.time <= cutoff
        invariant KeysOk(flows) && |flows.keys| <= |was.keys|
        invariant flows.vals == was.vals - gone && gone <= was.vals.Keys
        invariant ReportsExactly(reported, was, gone)
        invariant Scan(index, heap, flows.vals.Keys, last, cutoff)
        decreases |Due(heap, cutoff)|
      {
        ghost var k := heap.key;
        var rec := PopDue(cutoff, index, last);
        if rec.Some? {
          ReportsOneMore(reported, was, gone, k, rec.value);
          WithoutTwice(was.vals, gone, k);
          gone := gone + {k};
          if rec.value.Reportable() {
            reported := reported + [rec.value];
          }
        }
      }
      ScanDone(index, heap, flows.vals.Keys, last, cutoff);
      NoKeysLeft(flows);
    }

    /** One turn of the expiry loop: the earliest entry is stale, or its flow is still active, or its flow expires. */
    method PopDue(cutoff: real, ghost index: Heap<FlowKey>, ghost last: map<FlowKey, real>)
        returns (expired: Option<FlowRecord>)
      requires KeysOk(flows) && Scan(index, heap, flows.vals.Keys, last, cutoff)
      requires forall k | k in flows.vals :: k in last && last[k] == flows.vals[k].lastTime
      requires heap.Node? && heap.time <= cutoff
      modifies this`flows, this`heap
      ensures KeysOk(flows) && Scan(index, heap, flows.vals.Keys, last, cutoff)
      ensures expired.None? ==> flows == old(flows)
      ensures expired.Some? ==> old(heap).key in old(flows.vals) && expired.value == old(flows.vals)[old(heap).key]
                                && flows == old(flows).Remove(old(heap).key)
      ensures |flows.keys| <= |old(flows.keys)|
      ensures |Due(heap, cutoff)| < |Due(old(heap), cutoff)|
    {
      hide FlowRecord.Valid, Scan, DueAt, KeysOk, Due, IsHeap, DeleteMin, Insert, Elements;
      ghost var h, keys := heap, flows.vals.Keys;
      var k := heap.key;
      DuePops(heap, cutoff);
      heap := DeleteMin(heap);
      if k !in flows.vals {
        ScanStale(index, h, keys, last, cutoff);
        return None;
      }
      var rec := flows.vals[k];
      if rec.lastTime > cutoff {
        ScanRefresh(index, h, keys, last, cutoff);
        DuePushes(heap, rec.lastTime, k, cutoff);
        heap := Insert(heap, rec.lastTime, k);
        return None;
      }
      ScanExpire(index, h, keys, last, cutoff);
      RemoveKeepsKeys(flows, k);
      flows := flows.Remove(k);
      assert flows.vals.Keys == keys - {k};
      return Some(rec);
    }

    /** `collect_all`: every flow leaves, and the heap keeps its now stale entries. */
    method CollectAll() returns (reported: seq<FlowRecord>)
      requires Valid()
      modifies this`flows
      ensures Valid() && Timely() && flows.keys == []
      ensures ReportsExactly(reported, old(flows), old(flows.vals.Keys))
      ensures forall r | r in reported :: r.gap == gap
    {
      hide FlowRecord.Valid, GapsAre, FlowRecord.Reportable, ReportsExactly;
      ghost var was := flows;
      reported := [];
      ghost var done: set<FlowKey> := {};
      ReportsNothing(was);
      for i := 0 to |flows.keys|
        invariant ReportsExactly(reported, was, done)
        invariant done == set j | 0 <= j < i :: was.keys[j]
        invariant flows == was
      {
        KeysOkValid(flows);
        assert flows.keys[i] in flows.keys;
        var rec := flows.vals[flows.keys[i]];
        ReportsOneMore(reported, was, done, flows.keys[i], rec);
        done := done + {flows.keys[i]};
        if rec.Reportable() {
          reported := reported + [rec];
        }
      }
      assert done == was.vals.Keys;
      ReportedGaps(reported, was, done, gap);
      flows := Empty();
      GapsWithout(was, flows, gap);
    }
  }

  /**
   * A packet and its answer, on any table: one flow with both packets, one in each direction, unless both endpoints are
   * the same.
   */
  method RequestAndReply(table: FlowExtractor, a: FlowKey, b: FlowKey, lens: (nat, nat), times: (real, real))
      returns (key: FlowKey, forward: bool, key': FlowKey, forward': bool)
    requires table.Valid() && Answers(a, b)
    modifies table`flows, table`heap, set k | k in table.flows.vals :: table.flows.vals[k]
    ensures table.Valid()
    ensures key == key' && (a != b ==> forward != forward') && (a == b ==> forward && forward')
    ensures var was := old(table.Traces());
            table.Traces().Keys >= {key} && table.Traces()[key]
            == (if key in was then was[key] else [])
               + [Packet(times.0, lens.0, forward), Packet(times.1, lens.1, forward')]
  {
    hide FlowRecord.Valid, KeysOk, Indexed, DueAt, RecordsOk, OldestOnly, TimelyOn;
    ghost var v, v';
    ReverseAnswers(a, b);
    NotBoth(table.flows, a, b);
    key, forward, v := table.ProcessPacket(a, lens.0, times.0);
    assert key in table.Traces();
    NotBoth(table.flows, a, b);
    key', forward', v' := table.ProcessPacket(b, lens.1, times.1);
  }

  /** A table with one flow of one packet. */
  method OnePacket(k: FlowKey) returns (table: FlowExtractor)
    ensures fresh(table) && table.Valid() && table.timeout == 120.0 && table.maxFlows == 10
    ensures table.Traces() == map[k := [Packet(100.0, 60, true)]]
    ensures forall j | j in table.flows.vals :: fresh(table.flows.vals[j])
    ensures !DueAt(table.heap, k, 50.0)
  {
    hide KeysOk, Indexed, FlowRecord.Valid, IsHeap, Elements, OldestOnly, TimelyOn;
    table := new FlowExtractor(120.0, 1.0, 10);
    var k0, f0, v0 := table.ProcessPacket(k, 60, 100.0);
    EmptyIndex(k, 50.0);
  }

  /** Two packets of one flow, the second with an earlier time than the first. */
  method OutOfOrderFlow(k: FlowKey) returns (table: FlowExtractor)
    ensures fresh(table) && table.Valid() && table.timeout == 120.0
    ensures table.flows.vals.Keys == {k} && table.flows.vals[k].lastTime == 10.0
    ensures !DueAt(table.heap, k, 50.0)
  {
    hide KeysOk, Indexed, FlowRecord.Valid, IsHeap, Elements, DueAt, NothingElseDue, OldestOnly, TimelyOn;
    table := OnePacket(k);
    assert k in table.Traces();
    var k1, f1, v1 := table.ProcessPacket(k, 60, 10.0);
    assert table.flows.vals.Keys == table.Traces().Keys == {k};
    assert table.Traces()[k] == [Packet(100.0, 60, true)] + [Packet(10.0, 60, true)];
    LastPacket(table.flows.vals[k]);
  }

  /** The flow is silent at the cutoff, but its only heap entry is later: the expiry misses it. */
  method OutOfOrderFlowIsMissed(k: FlowKey)
      returns (table: FlowExtractor, reported: seq<FlowRecord>, ghost silent: set<FlowKey>, ghost gone: set<FlowKey>)
    ensures silent == {k} && gone == {}
  {
    hide KeysOk, Indexed, FlowRecord.Valid, IsHeap, Elements, DueAt, ReportsExactly;
    table := OutOfOrderFlow(k);
    silent := Silent(table.flows, 50.0);
    reported, gone := table.CollectExpired(170.0);
  }

  lemma EmptyIndex(k: FlowKey, t: real)
    ensures !DueAt(Leaf, k, t)
  {
  }

  lemma LastPacket(rec: FlowRecord)
    requires rec.Valid() && rec.trace != []
    ensures rec.lastTime == Last(rec.trace).ts
  {
  }
}
