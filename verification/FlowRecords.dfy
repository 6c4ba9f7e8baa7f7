/** Per-flow accounting: active and idle periods, and bulk transfers, as cuts of the packet trace at long gaps. */
module FlowRecords {

  /** One packet of a flow; `forward` is relative to the flow's first packet. */
  datatype Packet = Packet(ts: real, len: nat, forward: bool)

  datatype FlowKey = FlowKey(src: string, dst: string, sport: int, dport: int, proto: int) {
    function Reverse(): FlowKey {
      FlowKey(dst, src, dport, sport, proto)
    }
  }

  /** A packet with key `b` answers one with key `a`: the same two endpoints, the other way round. */
  ghost predicate Answers(a: FlowKey, b: FlowKey) {
    a.src == b.dst && a.dst == b.src && a.sport == b.dport && a.dport == b.sport && a.proto == b.proto
  }

  lemma ReverseAnswers(a: FlowKey, b: FlowKey)
    ensures Answers(a, b) <==> a == b.Reverse()
    ensures Answers(a, b) <==> b == a.Reverse()
  {
  }

  /* ---- the specification: a trace cut into runs ---- */

  type Run = r: seq<Packet> | r != [] witness [Packet(0.0, 0, true)]

  /** Maximal runs of packets with no gap above `gap` between neighbours. */
  ghost function Runs(trace: seq<Packet>, gap: real): (runs: seq<Run>)
    ensures |runs| == 0 <==> trace == []
    ensures trace != [] ==> Last(Last(runs)) == Last(trace)
  {
    if trace == [] then []
    else
      var init, p := trace[..|trace| - 1], trace[|trace| - 1];
      var runs := Runs(init, gap);
      if init == [] || p.ts - Last(init).ts > gap then runs + [[p]]
      else runs[..|runs| - 1] + [Last(runs) + [p]]
  }

  function Last<T>(s: seq<T>): T
    requires s != []
  {
    s[|s| - 1]
  }

  function Span(run: Run): real
  {
    Last(run).ts - run[0].ts
  }

  /** The durations of the runs that last at all. */
  ghost function ActiveSpans(runs: seq<Run>): seq<real>
  {
    if runs == [] then []
    else ActiveSpans(runs[..|runs| - 1]) + (if Span(Last(runs)) > 0.0 then [Span(Last(runs))] else [])
  }

  /** The silences between neighbouring runs. */
  ghost function Silences(runs: seq<Run>): seq<real>
  {
    if |runs| < 2 then []
    else Silences(runs[..|runs| - 1]) + [Last(runs)[0].ts - Last(runs[|runs| - 2]).ts]
  }

  function Sum(s: seq<real>): real {
    if s == [] then 0.0 else Sum(s[..|s| - 1]) + s[|s| - 1]
  }

  ghost function Bytes(run: seq<Packet>): nat {
    if run == [] then 0 else Bytes(run[..|run| - 1]) + run[|run| - 1].len
  }

  /** A bulk is a run of at least two packets: its bytes, and its packets. */
  ghost function BulkBytes(runs: seq<Run>): seq<nat> {
    if runs == [] then []
    else BulkBytes(runs[..|runs| - 1]) + (if |Last(runs)| > 1 then [Bytes(Last(runs))] else [])
  }

  ghost function BulkPackets(runs: seq<Run>): seq<nat> {
    if runs == [] then []
    else BulkPackets(runs[..|runs| - 1]) + (if |Last(runs)| > 1 then [|Last(runs)|] else [])
  }

  ghost function Closed(runs: seq<Run>): seq<Run> {
    if runs == [] then [] else runs[..|runs| - 1]
  }

  ghost function Direction(trace: seq<Packet>, forward: bool): (d: seq<Packet>)
    ensures forall i | 0 <= i < |d| :: d[i] in trace
  {
    if trace == [] then []
    else
      var init := Direction(trace[..|trace| - 1], forward);
      if Last(trace).forward == forward then init + [Last(trace)] else init
  }

  ghost predicate Positive(trace: seq<Packet>) {
    forall i | 0 <= i < |trace| :: trace[i].ts > 0.0
  }

  ghost predicate InTimeOrder(trace: seq<Packet>) {
    forall i, j | 0 <= i < j < |trace| :: trace[i].ts <= trace[j].ts
  }

  lemma RunsNext(trace: seq<Packet>, p: Packet, gap: real)
    ensures Runs(trace + [p], gap) ==
            var runs := Runs(trace, gap);
            if trace == [] || p.ts - Last(trace).ts > gap then runs + [[p]]
            else runs[..|runs| - 1] + [Last(runs) + [p]]
  {
    assert (trace + [p])[..|trace|] == trace;
  }

  ghost function Flat(runs: seq<Run>): seq<Packet> {
    if runs == [] then [] else Flat(runs[..|runs| - 1]) + runs[|runs| - 1]
  }

  ghost predicate Unbroken(run: seq<Packet>, gap: real) {
    forall i | 0 <= i < |run| - 1 :: run[i + 1].ts - run[i].ts <= gap
  }

  /** No gap above the limit within a run, and one between any two neighbours. */
  ghost predicate CutAtGaps(runs: seq<Run>, gap: real) {
    && (forall k | 0 <= k < |runs| :: Unbroken(runs[k], gap))
    && (forall k | 0 <= k < |runs| - 1 :: runs[k + 1][0].ts - Last(runs[k]).ts > gap)
  }

  lemma FlatNext(runs: seq<Run>, run: Run)
    ensures Flat(runs + [run]) == Flat(runs) + run
  {
    assert (runs + [run])[..|runs|] == runs;
  }

  lemma RunOpened(runs: seq<Run>, p: Packet, gap: real)
    ensures Flat(runs + [[p]]) == Flat(runs) + [p]
    ensures CutAtGaps(runs + [[p]], gap)
       <==> CutAtGaps(runs, gap) && (runs != [] ==> p.ts - Last(Last(runs)).ts > gap)
  {
    hide Flat, Unbroken;
    FlatNext(runs, [p]);
    var more := runs + [[p]];
    assert Unbroken([p], gap) by { OneIsUnbroken(p, gap); }
    assert forall k | 0 <= k < |runs| :: more[k] == runs[k];
    assert more[|runs|] == [p];
    if runs != [] {
      assert more[|runs| - 1] == Last(runs);
    }
  }

  lemma OneIsUnbroken(p: Packet, gap: real)
    ensures Unbroken([p], gap)
  {
  }

  lemma RunContinued(front: seq<Run>, run: Run, p: Packet, gap: real)
    ensures Flat(front + [run + [p]]) == Flat(front + [run]) + [p]
    ensures CutAtGaps(front + [run + [p]], gap)
       <==> CutAtGaps(front + [run], gap) && p.ts - Last(run).ts <= gap
  {
    hide Flat;
    FlatNext(front, run);
    FlatNext(front, run + [p]);
    var a, b := front + [run], front + [run + [p]];
    assert Unbroken(run + [p], gap) <==> Unbroken(run, gap) && p.ts - Last(run).ts <= gap by {
      UnbrokenNext(run, p, gap);
    }
    hide Unbroken;
    assert forall k | 0 <= k < |front| :: a[k] == b[k] == front[k];
    assert a[|front|] == run && b[|front|] == run + [p] && (run + [p])[0] == run[0];
  }

  lemma UnbrokenNext(run: Run, p: Packet, gap: real)
    ensures Unbroken(run + [p], gap) <==> Unbroken(run, gap) && p.ts - Last(run).ts <= gap
  {
    var more := run + [p];
    assert forall i | 0 <= i < |run| :: more[i] == run[i];
    assert more[|run|] == p;
    if Unbroken(more, gap) {
      assert more[|run| - 1 + 1].ts - more[|run| - 1].ts <= gap;
      assert forall i | 0 <= i < |run| - 1 :: more[i + 1].ts - more[i].ts <= gap;
    }
  }

  lemma NoRuns(gap: real)
    ensures Runs([], gap) == [] && Flat([]) == [] && CutAtGaps([], gap)
  {
  }

  lemma RunsCutNext(trace: seq<Packet>, p: Packet, gap: real)
    requires Flat(Runs(trace, gap)) == trace && CutAtGaps(Runs(trace, gap), gap)
    ensures Flat(Runs(trace + [p], gap)) == trace + [p] && CutAtGaps(Runs(trace + [p], gap), gap)
  {
    hide Runs, Flat, CutAtGaps;
    var runs := Runs(trace, gap);
    RunsNext(trace, p, gap);
    if trace == [] || p.ts - Last(trace).ts > gap {
      RunOpened(runs, p, gap);
    } else {
      assert runs == runs[..|runs| - 1] + [Last(runs)] by { LastSplits(runs); }
      RunContinued(runs[..|runs| - 1], Last(runs), p, gap);
    }
  }

  lemma LastSplits<T>(s: seq<T>)
    requires s != []
    ensures s == s[..|s| - 1] + [Last(s)]
  {
  }

  lemma {:induction false} RunsCutTheTrace(trace: seq<Packet>, gap: real)
    ensures Flat(Runs(trace, gap)) == trace && CutAtGaps(Runs(trace, gap), gap)
  {
    hide *;
    if trace == [] {
      NoRuns(gap);
    } else {
      var init, p := trace[..|trace| - 1], trace[|trace| - 1];
      RunsCutTheTrace(init, gap);
      RunsCutNext(init, p, gap);
      assert trace == init + [p];
    }
  }

  lemma LastOfFlat(runs: seq<Run>)
    requires runs != []
    ensures Flat(runs) != [] && Last(Flat(runs)) == Last(Last(runs))
  {
  }

  lemma {:induction false} CutIsRuns(runs: seq<Run>, gap: real)
    requires CutAtGaps(runs, gap)
    ensures Runs(Flat(runs), gap) == runs
    decreases |Flat(runs)|
  {
    if runs != [] {
      var front, run := runs[..|runs| - 1], runs[|runs| - 1];
      var p := Last(run);
      assert runs == front + [run];
      FlatNext(front, run);
      hide Runs, Flat, CutAtGaps;
      if |run| == 1 {
        assert run == [p];
        RunOpened(front, p, gap);
        CutIsRuns(front, gap);
        RunsNext(Flat(front), p, gap);
        if front != [] {
          LastOfFlat(front);
        } else {
          NoRuns(gap);
        }
      } else {
        var rest: Run := run[..|run| - 1];
        assert run == rest + [p];
        RunContinued(front, rest, p, gap);
        CutIsRuns(front + [rest], gap);
        RunsNext(Flat(front + [rest]), p, gap);
        LastOfFlat(front + [rest]);
        assert (front + [rest])[..|front|] == front;
      }
    }
  }

  /** The runs are the one way to cut the trace exactly at its gaps above the limit. */
  lemma RunsAreTheCutAtGaps(trace: seq<Packet>, runs: seq<Run>, gap: real)
    ensures runs == Runs(trace, gap) <==> Flat(runs) == trace && CutAtGaps(runs, gap)
  {
    hide Runs, Flat, CutAtGaps;
    RunsCutTheTrace(trace, gap);
    if Flat(runs) == trace && CutAtGaps(runs, gap) {
      CutIsRuns(runs, gap);
    }
  }

  function Lengths(d: seq<Packet>): (r: seq<nat>)
    ensures |r| == |d|
  {
    seq(|d|, i requires 0 <= i < |d| => d[i].len)
  }

  function Times(d: seq<Packet>): (r: seq<real>)
    ensures |r| == |d|
  {
    seq(|d|, i requires 0 <= i < |d| => d[i].ts)
  }

  /** The length and time lists of one direction hold exactly its packets, in order. */
  ghost predicate ListsDirection(lengths: seq<nat>, times: seq<real>, trace: seq<Packet>, forward: bool) {
    lengths == Lengths(Direction(trace, forward)) && times == Times(Direction(trace, forward))
  }

  lemma ListsNext(lengths: seq<nat>, times: seq<real>, trace: seq<Packet>, p: Packet, forward: bool)
    requires ListsDirection(lengths, times, trace, forward)
    ensures if p.forward == forward then ListsDirection(lengths + [p.len], times + [p.ts], trace + [p], forward)
            else ListsDirection(lengths, times, trace + [p], forward)
  {
    DirectionNext(trace, p, forward);
  }

  /** Every packet belongs to one direction. */
  lemma {:induction false} DirectionsPartition(trace: seq<Packet>)
    ensures |Direction(trace, true)| + |Direction(trace, false)| == |trace|
  {
    if trace != [] {
      DirectionsPartition(trace[..|trace| - 1]);
    }
  }

  lemma DirectionNext(trace: seq<Packet>, p: Packet, forward: bool)
    ensures Direction(trace + [p], forward) == Direction(trace, forward) + (if p.forward == forward then [p] else [])
  {
    assert (trace + [p])[..|trace|] == trace;
  }

  lemma PositiveNext(trace: seq<Packet>, p: Packet)
    ensures Positive(trace + [p]) <==> Positive(trace) && p.ts > 0.0
    ensures Positive(trace) && trace != [] ==> trace[0].ts > 0.0
    ensures trace == [] ==> trace + [p] == [p]
  {
    assert forall i | 0 <= i < |trace| :: trace[i] == (trace + [p])[i];
    assert (trace + [p])[|trace|] == p;
  }

  /* ---- bulk tracking of one direction ---- */

  datatype Bulk = Bulk(bytes: seq<nat>, pkts: seq<nat>, curBytes: nat, curPkts: nat, lastTime: real) {

    function Add(len: nat, ts: real, gap: real): Bulk {
      var b := if lastTime > 0.0 && ts - lastTime > gap then
                 Bulk(if curPkts > 1 then bytes + [curBytes] else bytes,
                      if curPkts > 1 then pkts + [curPkts] else pkts, 0, 0, lastTime)
               else this;
      b.(curBytes := b.curBytes + len, curPkts := b.curPkts + 1, lastTime := ts)
    }

    /** The closing step of the feature vector: the open bulk counts too. */
    function Finish(): (seq<nat>, seq<nat>) {
      if curPkts > 1 then (bytes + [curBytes], pkts + [curPkts]) else (bytes, pkts)
    }

    /** The lists hold the closed bulks of `dir`, and the counters its last run. */
    ghost predicate Tracks(dir: seq<Packet>, gap: real) {
      var runs := Runs(dir, gap);
      && bytes == BulkBytes(Closed(runs)) && pkts == BulkPackets(Closed(runs))
      && (if dir == [] then curBytes == 0 && curPkts == 0 && lastTime == 0.0
          else curBytes == Bytes(Last(runs)) && curPkts == |Last(runs)| && lastTime == Last(dir).ts)
    }
  }

  lemma BytesNext(run: seq<Packet>, p: Packet)
    ensures Bytes(run + [p]) == Bytes(run) + p.len && Bytes([p]) == p.len
  {
    assert (run + [p])[..|run|] == run && [p][..0] == [];
  }

  /** The runs after one more packet, as the counters see them. */
  lemma LastRunNext(dir: seq<Packet>, p: Packet, gap: real)
    ensures var runs, more := Runs(dir, gap), Runs(dir + [p], gap);
            if dir == [] then Closed(more) == [] && Last(more) == [p]
            else if p.ts - Last(dir).ts > gap then Closed(more) == runs && Last(more) == [p]
            else Closed(more) == Closed(runs) && Last(more) == Last(runs) + [p]
  {
    RunsNext(dir, p, gap);
    hide Runs;
  }

  lemma ClosedBulks(runs: seq<Run>)
    requires runs != []
    ensures BulkBytes(runs) == BulkBytes(Closed(runs)) + if |Last(runs)| > 1 then [Bytes(Last(runs))] else []
    ensures BulkPackets(runs) == BulkPackets(Closed(runs)) + if |Last(runs)| > 1 then [|Last(runs)|] else []
  {
  }

  lemma BulkAddTracks(b: Bulk, dir: seq<Packet>, p: Packet, gap: real)
    requires Positive(dir) && b.Tracks(dir, gap)
    ensures b.Add(p.len, p.ts, gap).Tracks(dir + [p], gap)
  {
    hide Runs, BulkBytes, BulkPackets, Bytes, Closed;
    var runs := Runs(dir, gap);
    LastRunNext(dir, p, gap);
    assert Last(dir + [p]) == p;
    if dir == [] {
      BytesNext([], p);
      NoClosedRuns();
    } else {
      BytesNext(Last(runs), p);
      ClosedBulks(runs);
      assert Last(dir).ts > 0.0;
    }
  }

  lemma NoClosedRuns()
    ensures Closed([]) == []
  {
  }

  /** Closing reports exactly the runs of at least two packets. */
  lemma BulkFinishReportsRuns(b: Bulk, dir: seq<Packet>, gap: real)
    requires b.Tracks(dir, gap)
    ensures b.Finish() == (BulkBytes(Runs(dir, gap)), BulkPackets(Runs(dir, gap)))
  {
    hide Runs;
    var runs := Runs(dir, gap);
    if runs != [] {
      assert BulkBytes(runs) == b.Finish().0 && BulkPackets(runs) == b.Finish().1;
    }
  }

  /* ---- the record ---- */

  class FlowRecord {
    const key: FlowKey
    const gap: real
    var startTime: real
    var lastTime: real
    var fwdLengths: seq<nat>
    var bwdLengths: seq<nat>
    var fwdTimes: seq<real>
    var bwdTimes: seq<real>
    var activePeriods: seq<real>
    var idlePeriods: seq<real>
    var currentActiveStart: real
    var fwdBulk: Bulk
    var bwdBulk: Bulk
    /** Every packet added so far. */
    ghost var trace: seq<Packet>

    ghost predicate Valid()
      reads this
    {
      && ListsDirection(fwdLengths, fwdTimes, trace, true)
      && ListsDirection(bwdLengths, bwdTimes, trace, false)
      && (trace != [] ==> lastTime == Last(trace).ts)
      && (trace == [] ==> startTime == lastTime == currentActiveStart == 0.0)
      && (Positive(trace) ==> Accounted())
    }

    ghost predicate Accounted()
      reads this
    {
      && TracksActivity(activePeriods, idlePeriods, currentActiveStart, trace, gap)
      && (trace != [] ==> startTime == trace[0].ts)
      && TracksBulks(fwdBulk, bwdBulk, trace, gap)
    }

    constructor (key: FlowKey, gap: real)
      ensures Valid() && trace == [] && this.key == key && this.gap == gap
    {
      this.key, this.gap := key, gap;
      startTime, lastTime, currentActiveStart := 0.0, 0.0, 0.0;
      fwdLengths, bwdLengths, fwdTimes, bwdTimes, activePeriods, idlePeriods := [], [], [], [], [], [];
      fwdBulk, bwdBulk := Bulk([], [], 0, 0, 0.0), Bulk([], [], 0, 0, 0.0);
      trace := [];
    }

    method AddPacket(len: nat, ts: real, forward: bool)
      requires Valid()
      modifies this
      ensures Valid() && trace == old(trace) + [Packet(ts, len, forward)] && lastTime == ts
    {
      hide TracksActivity, TracksBulks, ListsDirection, Bulk.Add, Positive;
      ghost var p, was := Packet(ts, len, forward), trace;
      NextActivity(activePeriods, idlePeriods, currentActiveStart, lastTime, was, p, gap);
      PositiveNext(was, p);
      ListsNext(fwdLengths, fwdTimes, was, p, true);
      ListsNext(bwdLengths, bwdTimes, was, p, false);
      if Positive(was) {
        NextBulks(fwdBulk, bwdBulk, was, p, gap);
      }
      AddToPeriods(ts);
      lastTime := ts;
      AddToDirection(len, ts, forward);
      trace := trace + [p];
    }

    /** The part of `add_packet` that opens and closes active periods. */
    method AddToPeriods(ts: real)
      modifies this`startTime, this`currentActiveStart, this`activePeriods, this`idlePeriods
      ensures old(startTime) == 0.0 ==>
                && startTime == currentActiveStart == ts
                && activePeriods == old(activePeriods) && idlePeriods == old(idlePeriods)
      ensures old(startTime) != 0.0 ==> startTime == old(startTime)
      ensures old(startTime) != 0.0 && ts - lastTime > gap ==>
                && activePeriods == (if lastTime - old(currentActiveStart) > 0.0
                                     then old(activePeriods) + [lastTime - old(currentActiveStart)]
                                     else old(activePeriods))
                && idlePeriods == old(idlePeriods) + [ts - lastTime] && currentActiveStart == ts
      ensures old(startTime) != 0.0 && ts - lastTime <= gap ==>
                && activePeriods == old(activePeriods) && idlePeriods == old(idlePeriods)
                && currentActiveStart == old(currentActiveStart)
    {
      if startTime == 0.0 {
        startTime := ts;
        currentActiveStart := ts;
      } else {
        var silence := ts - lastTime;
        if silence > gap {
          var duration := lastTime - currentActiveStart;
          if duration > 0.0 {
            activePeriods := activePeriods + [duration];
          }
          idlePeriods := idlePeriods + [silence];
          currentActiveStart := ts;
        }
      }
    }

    /** The part of `add_packet` that concerns the packet's own direction. */
    method AddToDirection(len: nat, ts: real, forward: bool)
      modifies this`fwdLengths, this`fwdTimes, this`fwdBulk, this`bwdLengths, this`bwdTimes, this`bwdBulk
      ensures fwdBulk == (if forward then old(fwdBulk).Add(len, ts, gap) else old(fwdBulk))
      ensures bwdBulk == (if forward then old(bwdBulk) else old(bwdBulk).Add(len, ts, gap))
      ensures fwdLengths == (if forward then old(fwdLengths) + [len] else old(fwdLengths))
      ensures bwdLengths == (if forward then old(bwdLengths) else old(bwdLengths) + [len])
      ensures fwdTimes == (if forward then old(fwdTimes) + [ts] else old(fwdTimes))
      ensures bwdTimes == (if forward then old(bwdTimes) else old(bwdTimes) + [ts])
    {
      if forward {
        fwdLengths := fwdLengths + [len];
        fwdTimes := fwdTimes + [ts];
        fwdBulk := fwdBulk.Add(len, ts, gap);
      } else {
        bwdLengths := bwdLengths + [len];
        bwdTimes := bwdTimes + [ts];
        bwdBulk := bwdBulk.Add(len, ts, gap);
      }
    }

    /** Too few packets give no feature vector. */
    predicate Reportable()
      requires Valid()
      reads this
      ensures Reportable() <==> |trace| >= 2
    {
      DirectionsPartition(trace);
      |fwdLengths| + |bwdLengths| >= 2
    }

    /** The periods of the feature vector: the open active period is closed if it lasts at all. */
    method ClosePeriods() returns (active: seq<real>, idle: seq<real>)
      requires Valid()
      ensures Positive(trace) ==> active == ActiveSpans(Runs(trace, gap)) && idle == Silences(Runs(trace, gap))
    {
      hide ListsDirection, TracksBulks, Closed, Runs, ActiveSpans, Silences, Positive;
      ReportedPeriods(activePeriods, idlePeriods, currentActiveStart, lastTime, trace, gap);
      active, idle := activePeriods, idlePeriods;
      var open := lastTime - currentActiveStart;
      if open > 0.0 {
        active := active + [open];
      }
    }

    method CloseBulks() returns (fwd: (seq<nat>, seq<nat>), bwd: (seq<nat>, seq<nat>))
      requires Valid()
      ensures Positive(trace) ==>
                var f, b := Runs(Direction(trace, true), gap), Runs(Direction(trace, false), gap);
                fwd == (BulkBytes(f), BulkPackets(f)) && bwd == (BulkBytes(b), BulkPackets(b))
    {
      fwd, bwd := fwdBulk.Finish(), bwdBulk.Finish();
      if Positive(trace) {
        BulkFinishReportsRuns(fwdBulk, Direction(trace, true), gap);
        BulkFinishReportsRuns(bwdBulk, Direction(trace, false), gap);
      }
    }
  }

  ghost predicate TracksActivity(active: seq<real>, idle: seq<real>, start: real, trace: seq<Packet>, gap: real) {
    var runs := Runs(trace, gap);
    && active == ActiveSpans(Closed(runs)) && idle == Silences(runs)
    && (trace != [] ==> start == Last(runs)[0].ts)
  }

  /** Closing the open active period leaves the spans of all runs. */
  lemma ReportedPeriods(active: seq<real>, idle: seq<real>, start: real, last: real, trace: seq<Packet>, gap: real)
    requires if trace == [] then last == start else last == Last(trace).ts
    ensures TracksActivity(active, idle, start, trace, gap) ==>
              && ActiveSpans(Runs(trace, gap)) == active + (if last - start > 0.0 then [last - start] else [])
              && Silences(Runs(trace, gap)) == idle
  {
    hide Silences, Runs;
    assert active + [] == active;
  }

  lemma NextActivity(active: seq<real>, idle: seq<real>, start: real, last: real, trace: seq<Packet>, p: Packet,
                     gap: real)
    requires trace != [] ==> last == Last(trace).ts
    ensures TracksActivity(active, idle, start, trace, gap) ==>
              if trace == [] then TracksActivity(active, idle, p.ts, [p], gap)
              else if p.ts - last > gap then
                TracksActivity(if last - start > 0.0 then active + [last - start] else active,
                               idle + [p.ts - last], p.ts, trace + [p], gap)
              else TracksActivity(active, idle, start, trace + [p], gap)
  {
    hide Runs, ActiveSpans, Silences;
    RunsNext(trace, p, gap);
    var runs := Runs(trace, gap);
    if trace == [] {
      assert [] + [p] == [p];
      FirstRun([p]);
    } else if p.ts - last > gap {
      RunClosed(runs, [p]);
    } else {
      RunExtended(runs, p);
    }
  }

  lemma FirstRun(run: Run)
    ensures [] + [run] == [run]
    ensures Closed([run]) == [] && ActiveSpans([]) == [] && Silences([run]) == [] == Silences([]) && Last([run]) == run
  {
  }

  lemma RunClosed(runs: seq<Run>, run: Run)
    requires runs != []
    ensures Closed(runs + [run]) == runs && Last(runs + [run]) == run
    ensures ActiveSpans(runs) == ActiveSpans(Closed(runs)) + (if Span(Last(runs)) > 0.0 then [Span(Last(runs))] else [])
    ensures Silences(runs + [run]) == Silences(runs) + [run[0].ts - Last(Last(runs)).ts]
  {
    hide Span;
    var all := runs + [run];
    assert all[..|all| - 1] == runs && Last(all) == run && all[|all| - 2] == Last(runs);
    SilencesNext(all);
    hide Silences;
  }

  lemma SilencesNext(runs: seq<Run>)
    requires |runs| >= 2
    ensures Silences(runs) == Silences(runs[..|runs| - 1]) + [Last(runs)[0].ts - Last(runs[|runs| - 2]).ts]
  {
  }

  lemma RunExtended(runs: seq<Run>, p: Packet)
    requires runs != []
    ensures var runs' := runs[..|runs| - 1] + [Last(runs) + [p]];
            Closed(runs') == Closed(runs) && Last(runs')[0] == Last(runs)[0] && Silences(runs') == Silences(runs)
  {
    var runs' := runs[..|runs| - 1] + [Last(runs) + [p]];
    assert Closed(runs') == Closed(runs);
    SilencesSame(runs, runs');
  }

  /** Silences depend only on the closed runs and on where the last run starts. */
  lemma SilencesSame(a: seq<Run>, b: seq<Run>)
    requires |a| == |b| > 0 && a[..|a| - 1] == b[..|b| - 1] && Last(a)[0] == Last(b)[0]
    ensures Silences(a) == Silences(b)
  {
    if |a| > 1 {
      assert a[|a| - 2] == a[..|a| - 1][|a| - 2] == b[|a| - 2];
    }
  }

  ghost predicate TracksBulks(fwd: Bulk, bwd: Bulk, trace: seq<Packet>, gap: real) {
    fwd.Tracks(Direction(trace, true), gap) && bwd.Tracks(Direction(trace, false), gap)
  }

  lemma NextBulks(fwd: Bulk, bwd: Bulk, trace: seq<Packet>, p: Packet, gap: real)
    requires Positive(trace) && TracksBulks(fwd, bwd, trace, gap)
    ensures TracksBulks(if p.forward then fwd.Add(p.len, p.ts, gap) else fwd,
                        if p.forward then bwd else bwd.Add(p.len, p.ts, gap), trace + [p], gap)
  {
    hide Bulk.Tracks, Bulk.Add, Direction;
    DirectionNext(trace, p, true);
    DirectionNext(trace, p, false);
    assert Direction(trace, !p.forward) + [] == Direction(trace, !p.forward);
    BulkAddTracks(if p.forward then fwd else bwd, Direction(trace, p.forward), p, gap);
  }

  /* ---- conservation ---- */

  ghost function Spans(runs: seq<Run>): seq<real>
  {
    if runs == [] then [] else Spans(runs[..|runs| - 1]) + [Span(Last(runs))]
  }

  lemma SumAppend(s: seq<real>, x: real)
    ensures Sum(s + [x]) == Sum(s) + x
  {
    assert (s + [x])[..|s|] == s;
  }

  /** Spans and silences telescope. */
  lemma {:induction false} RunsTelescope(runs: seq<Run>)
    requires runs != []
    ensures Sum(Spans(runs)) + Sum(Silences(runs)) == Last(Last(runs)).ts - runs[0][0].ts
  {
    var init := runs[..|runs| - 1];
    SumAppend(Spans(init), Span(Last(runs)));
    if init != [] {
      RunsTelescope(init);
      assert Last(init) == runs[|runs| - 2];
      SumAppend(Silences(init), Last(runs)[0].ts - Last(runs[|runs| - 2]).ts);
    } else {
      assert Spans(init) == [] && Silences(runs) == [];
    }
  }

  lemma {:induction false} FirstRunStarts(trace: seq<Packet>, gap: real)
    requires trace != []
    ensures Runs(trace, gap)[0][0] == trace[0]
  {
    if |trace| > 1 {
      FirstRunStarts(trace[..|trace| - 1], gap);
    }
  }

  /** A run that ends before it starts: the one way in which recorded time gets lost. */
  ghost predicate RunsBackwards(runs: seq<Run>)
  {
    exists i | 0 <= i < |runs| :: Span(runs[i]) < 0.0
  }

  lemma {:induction false} ActiveSum(runs: seq<Run>)
    ensures Sum(ActiveSpans(runs)) >= Sum(Spans(runs))
    ensures Sum(ActiveSpans(runs)) == Sum(Spans(runs)) <==> !RunsBackwards(runs)
  {
    if runs != [] {
      var n := |runs| - 1;
      var init := runs[..n];
      ActiveSum(init);
      SumAppend(Spans(init), Span(Last(runs)));
      SumAppend(ActiveSpans(init), Span(Last(runs)));
      assert ActiveSpans(init) + [] == ActiveSpans(init);
      assert RunsBackwards(runs) <==> RunsBackwards(init) || Span(runs[n]) < 0.0 by {
        if RunsBackwards(init) {
          var i :| 0 <= i < n && Span(init[i]) < 0.0;
          assert Span(runs[i]) < 0.0;
        }
        if RunsBackwards(runs) {
          var i :| 0 <= i < |runs| && Span(runs[i]) < 0.0;
          assert i < n ==> Span(init[i]) < 0.0;
        }
      }
    }
  }

  /**
   * Active periods, idle periods and the open period never cover less than the flow's duration, and they sum
   * to it exactly when no run of the trace ends before it starts.
   */
  lemma PeriodsSumToDuration(trace: seq<Packet>, gap: real)
    requires trace != []
    ensures var runs := Runs(trace, gap);
            var covered, duration := Sum(ActiveSpans(runs)) + Sum(Silences(runs)), Last(trace).ts - trace[0].ts;
            covered >= duration && (covered == duration <==> !RunsBackwards(runs))
  {
    var runs := Runs(trace, gap);
    RunsTelescope(runs);
    ActiveSum(runs);
    FirstRunStarts(trace, gap);
    hide Runs;
  }

  /** Every packet of a run is one of the trace. */
  lemma RunPackets(trace: seq<Packet>, gap: real)
    ensures forall r | r in Runs(trace, gap) :: forall q | q in r :: q in trace
  {
    hide Runs, Flat, CutAtGaps;
    RunsCutTheTrace(trace, gap);
    FlatPackets(Runs(trace, gap));
  }

  lemma {:induction false} FlatPackets(runs: seq<Run>)
    ensures forall r | r in runs :: forall q | q in r :: q in Flat(runs)
  {
    if runs != [] {
      FlatPackets(runs[..|runs| - 1]);
      LastSplits(runs);
    }
  }

  /** A run continued by a packet that is no earlier than its first one goes forward. */
  lemma RunsForwardNext(runs: seq<Run>, p: Packet)
    requires !RunsBackwards(runs)
    ensures !RunsBackwards(runs + [[p]])
    ensures runs != [] && Last(runs)[0].ts <= p.ts ==> !RunsBackwards(runs[..|runs| - 1] + [Last(runs) + [p]])
  {
    assert forall i | 0 <= i < |runs| :: runs[i] in runs;
  }

  /** In time order no run goes backwards, so the periods of such a trace always sum to its duration. */
  lemma {:induction false} OrderedRunsGoForward(trace: seq<Packet>, gap: real)
    requires InTimeOrder(trace)
    ensures !RunsBackwards(Runs(trace, gap))
  {
    hide Runs, RunsBackwards;
    if trace == [] {
      NothingBackwards(gap);
    } else {
      var n := |trace| - 1;
      var init, p := trace[..n], trace[n];
      OrderedRunsGoForward(init, gap);
      RunsNext(init, p, gap);
      assert trace == init + [p];
      RunsForwardNext(Runs(init, gap), p);
      if init != [] {
        RunPackets(init, gap);
        var run := Last(Runs(init, gap));
        assert run in Runs(init, gap) && run[0] in run;
        assert forall k | 0 <= k < n :: init[k].ts <= p.ts;
      }
    }
  }

  lemma NothingBackwards(gap: real)
    ensures !RunsBackwards(Runs([], gap))
  {
  }
}
