/** The live baseline engine with its per-host ring buffers, and the offline batch scorer that mirrors it. */
module LiveScoring {
  import opened Wrappers
  import opened Deque
  import opened PyDict
  import opened HostWindows

  /**
   * The trained models as arbitrary functions: the scaler on rows, the forest's score of a scaled row,
   * the autoencoder's reconstruction error of a scaled sequence, and the validation threshold.
   */
  datatype Models = Models(scale: Row -> Row, pointScore: Row -> real, error: seq<Row> -> real, threshold: real)

  datatype Config = Config(seqLen: nat, maxBuffers: nat) {
    ghost predicate Valid() {
      seqLen > 0 && maxBuffers > 0
    }
  }

  type Buffers = Dict<Host, seq<Row>>

  function LstmScore(error: real, threshold: real): real {
    var r := (if error < 0.0 then 0.0 else error) / (if threshold < 0.000000001 then 0.000000001 else threshold);
    r / (1.0 + r)
  }

  function Combine(a: real, b: real): real {
    var top := if a < b then b else a;
    if top < 0.0 then 0.0 else if top > 1.0 then 1.0 else top
  }

  /** `s` is the larger of `a` and `b`, clipped to [0, 1]: at least both unless it is 1, one of them unless it is 0. */
  ghost predicate IsLargerClipped(s: real, a: real, b: real) {
    && 0.0 <= s <= 1.0
    && (s < 1.0 ==> a <= s && b <= s)
    && (s > 0.0 ==> s <= a || s <= b)
  }

  /** `x` is the share of the error in error plus threshold; negative errors and thresholds under 1e-9 do not count. */
  ghost predicate IsRelativeError(x: real, error: real, threshold: real) {
    var e, t := if error < 0.0 then 0.0 else error, if threshold < 0.000000001 then 0.000000001 else threshold;
    x * (e + t) == e
  }

  lemma CombineIsLarger(a: real, b: real)
    ensures IsLargerClipped(Combine(a, b), a, b)
  {
  }

  lemma LstmScoreIsRelativeError(error: real, threshold: real)
    ensures IsRelativeError(LstmScore(error, threshold), error, threshold)
  {
    var e, t := if error < 0.0 then 0.0 else error, if threshold < 0.000000001 then 0.000000001 else threshold;
    var r := e / t;
    assert r * t == e;
    assert LstmScore(error, threshold) * (1.0 + r) == r;
    ShareOf(LstmScore(error, threshold), r, e, t);
  }

  lemma ShareOf(x: real, r: real, e: real, t: real)
    requires x * (1.0 + r) == r && r * t == e
    ensures x * (e + t) == e
  {
    assert x * (e + t) == x * (1.0 + r) * t;
  }

  /** There is one such score, it grows with both parts, and it is the larger part when that lies in [0, 1]. */
  lemma LargerClippedGrows(s: real, a: real, b: real, s': real, a': real, b': real)
    requires IsLargerClipped(s, a, b) && IsLargerClipped(s', a', b') && a <= a' && b <= b'
    ensures s <= s'
    ensures a == a' && b == b' ==> s == s'
    ensures 0.0 <= a <= 1.0 && b <= a ==> s == a
    ensures 0.0 <= b <= 1.0 && a <= b ==> s == b
  {
  }

  /** The temporal score lies in [0, 1), is 1/2 exactly at the threshold, and rises strictly with the error. */
  lemma RelativeErrorShape(x: real, error: real, x': real, error': real, threshold: real)
    requires IsRelativeError(x, error, threshold) && IsRelativeError(x', error', threshold)
    requires threshold >= 0.000000001
    ensures 0.0 <= x < 1.0
    ensures x == 0.5 <==> error == threshold
    ensures x == 0.0 <==> error <= 0.0
    ensures error < error' && error' > 0.0 ==> x < x'
    ensures error == error' ==> x == x'
  {
    ShareShape(x, if error < 0.0 then 0.0 else error, threshold);
    ShareRises(x, if error < 0.0 then 0.0 else error, x', if error' < 0.0 then 0.0 else error', threshold);
  }

  /** A product with a positive factor has the sign of the other factor. */
  lemma SignOf(a: real, u: real, p: real)
    requires u > 0.0 && p == a * u
    ensures (p > 0.0 <==> a > 0.0) && (p == 0.0 <==> a == 0.0)
  {
  }

  lemma ShareShape(x: real, e: real, t: real)
    requires e >= 0.0 && t > 0.0 && x * (e + t) == e
    ensures 0.0 <= x < 1.0
    ensures x == 0.5 <==> e == t
    ensures x == 0.0 <==> e == 0.0
  {
    var u := e + t;
    SignOf(x, u, e);
    assert (1.0 - x) * u == t;
    SignOf(1.0 - x, u, t);
    assert (x - 0.5) * u == (e - t) / 2.0;
    SignOf(x - 0.5, u, (e - t) / 2.0);
  }

  lemma ShareRises(x: real, e: real, x': real, e': real, t: real)
    requires e >= 0.0 && e' >= 0.0 && t > 0.0 && x * (e + t) == e && x' * (e' + t) == e'
    ensures e < e' ==> x < x'
    ensures e == e' ==> x == x'
  {
    ShareShape(x, e, t);
    // Both differences have the same sign.
    var u', p := e' + t, (1.0 - x) * (e' - e);
    assert x * u' == x * (e + t) + x * (e' - e);
    assert (x' - x) * u' == p;
    SignOf(x' - x, u', p);
    if e < e' {
      SignOf(e' - e, 1.0 - x, p);
    }
  }

  function ScaleAll(m: Models, rows: seq<Row>): (r: seq<Row>)
    ensures |r| == |rows| && forall i | 0 <= i < |r| :: r[i] == m.scale(rows[i])
  {
    seq(|rows|, i requires 0 <= i < |rows| => m.scale(rows[i]))
  }

  /* ---- the live engine ---- */

  /** The first key, in insertion order, whose buffer is shortest. */
  function Shortest(keys: seq<Host>, vals: map<Host, seq<Row>>): (h: Host)
    requires keys != [] && forall k | k in keys :: k in vals
    ensures h in keys
    ensures forall k | k in keys :: |vals[h]| <= |vals[k]|
  {
    var init, last := keys[..|keys| - 1], keys[|keys| - 1];
    if init == [] then last
    else
      var best := Shortest(init, vals);
      if |vals[last]| < |vals[best]| then last else best
  }

  /** The first of the shortest buffers, in the order of the keys. */
  ghost predicate FirstShortest(b: Buffers, p: nat) {
    && p < |b.keys| && (forall k | k in b.keys :: k in b.vals)
    && (forall j | 0 <= j < p :: |b.vals[b.keys[j]]| > |b.vals[b.keys[p]]|)
    && (forall j | p < j < |b.keys| :: |b.vals[b.keys[j]]| >= |b.vals[b.keys[p]]|)
  }

  lemma {:induction false} ShortestPosition(keys: seq<Host>, vals: map<Host, seq<Row>>) returns (p: nat)
    requires keys != [] && forall k | k in keys :: k in vals
    ensures p < |keys| && keys[p] == Shortest(keys, vals)
    ensures forall j | 0 <= j < p :: |vals[keys[j]]| > |vals[keys[p]]|
    ensures forall j | p < j < |keys| :: |vals[keys[j]]| >= |vals[keys[p]]|
  {
    var init, last := keys[..|keys| - 1], keys[|keys| - 1];
    assert keys == init + [last];
    ShortestNext(init, last, vals);
    hide Shortest;
    p := |init|;
    if init != [] {
      var best := ShortestPosition(init, vals);
      if |vals[last]| >= |vals[init[best]]| {
        p := best;
        assert forall j | 0 <= j < |init| :: keys[j] == init[j];
      } else {
        forall j | 0 <= j < |init| ensures |vals[keys[j]]| > |vals[last]| {
          assert keys[j] == init[j];
        }
      }
    }
  }

  lemma ShortestNext(init: seq<Host>, last: Host, vals: map<Host, seq<Row>>)
    requires forall k | k in init + [last] :: k in vals
    ensures Shortest(init + [last], vals) ==
            if init == [] || |vals[last]| < |vals[Shortest(init, vals)]| then last else Shortest(init, vals)
  {
    assert (init + [last])[..|init|] == init;
  }

  lemma ShortestIsFirst(b: Buffers)
    requires b.Valid() && b.keys != []
    ensures exists p: nat :: FirstShortest(b, p) && b.keys[p] == Shortest(b.keys, b.vals)
  {
    hide Shortest;
    var p := ShortestPosition(b.keys, b.vals);
    assert FirstShortest(b, p);
  }

  /**
   * How the table takes in a row: the host's buffer gets it and drops its oldest beyond `seqLen`; a new host in a full
   * table pushes out the first shortest buffer; every other buffer stays.
   */
  ghost predicate TakesIn(c: Config, was: Buffers, now: Buffers, host: Host, row: Row) {
    && host in now.vals
    && now.vals[host] == Newest((if host in was.vals then was.vals[host] else []) + [row], c.seqLen)
    && (forall h | h in now.vals && h != host :: h in was.vals && now.vals[h] == was.vals[h])
    && if host in was.vals then now.keys == was.keys
       else if |was.keys| < c.maxBuffers then now.keys == was.keys + [host]
       else exists p: nat :: FirstShortest(was, p) && now.keys == Without(was.keys, was.keys[p]) + [host]
  }

  function MakeRoom(c: Config, b: Buffers, h: Host): (r: Buffers)
    requires c.Valid() && b.Valid()
    ensures r.Valid()
  {
    if h !in b.vals && |b.keys| >= c.maxBuffers then b.Remove(Shortest(b.keys, b.vals)) else b
  }

  function UpdateBuffers(c: Config, b: Buffers, s: Sample): (r: Buffers)
    requires c.Valid() && b.Valid()
    ensures r.Valid()
  {
    var room := MakeRoom(c, b, s.host);
    room.Put(s.host, Push(room.GetOr(s.host, []), s.row, c.seqLen))
  }

  function Replay(c: Config, obs: seq<Sample>): (b: Buffers)
    requires c.Valid()
    ensures b.Valid()
  {
    if obs == [] then Empty() else UpdateBuffers(c, Replay(c, obs[..|obs| - 1]), obs[|obs| - 1])
  }

  function EngineScore(c: Config, m: Models, b: Buffers, h: Host, row: Row): real {
    var buffer := b.GetOr(h, []);
    var temporal := if h in b.vals && |buffer| >= c.seqLen
                    then LstmScore(m.error(ScaleAll(m, buffer)), m.threshold) else 0.0;
    Combine(m.pointScore(m.scale(row)), temporal)
  }

  lemma ReplayNext(c: Config, obs: seq<Sample>, s: Sample)
    requires c.Valid()
    ensures Replay(c, obs + [s]) == UpdateBuffers(c, Replay(c, obs), s)
  {
    assert (obs + [s])[..|obs|] == obs;
  }

  class BaselineEngine {
    const config: Config
    var models: Option<Models>
    var buffers: Buffers
    ghost var seen: seq<Sample>

    ghost predicate Valid()
      reads this
    {
      config.Valid() && buffers == Replay(config, seen)
    }

    constructor (config: Config)
      requires config.Valid()
      ensures Valid() && seen == [] && models.None? && this.config == config
    {
      this.config := config;
      models, buffers, seen := None, Empty(), [];
    }

    /** A hot reload swaps the models and leaves every buffer alone. */
    method Swap(loaded: Models)
      requires Valid()
      modifies this`models
      ensures Valid() && models == Some(loaded)
    {
      models := Some(loaded);
    }

    method Update(host: Host, row: Row)
      requires Valid()
      modifies this`buffers, this`seen
      ensures Valid() && seen == old(seen) + [Sample(host, row)]
      ensures |buffers.keys| <= config.maxBuffers
      ensures host in buffers.vals && |buffers.vals[host]| <= config.seqLen
      ensures TakesIn(config, old(buffers), buffers, host, row)
    {
      hide Replay, Shortest, Push, Newest, FirstShortest;
      PushIsNewest(buffers.GetOr(host, []), row, config.seqLen);
      ReplayNext(config, seen, Sample(host, row));
      LastHasBuffer(config, seen, Sample(host, row));
      seen := seen + [Sample(host, row)];
      if host !in buffers.vals && |buffers.keys| >= config.maxBuffers {
        var victim := Shortest(buffers.keys, buffers.vals);
        ShortestIsFirst(buffers);
        buffers := buffers.Remove(victim);
      }
      buffers := buffers.Put(host, Push(buffers.GetOr(host, []), row, config.seqLen));
    }

    method AnomalyScore(host: Host, row: Row) returns (s: Option<real>)
      requires Valid()
      ensures s.None? <==> models.None?
      ensures s.Some? ==>
                var m, vals := models.value, buffers.vals;
                exists temporal: real :: IsLargerClipped(s.value, m.pointScore(m.scale(row)), temporal)
                  && if host in vals && |vals[host]| >= config.seqLen
                     then IsRelativeError(temporal, m.error(ScaleAll(m, vals[host])), m.threshold)
                     else temporal == 0.0
      ensures s.Some? ==> s.value == EngineScore(config, models.value, Replay(config, seen), host, row)
    {
      if models.None? {
        return None;
      }
      var m := models.value;
      var point := m.pointScore(m.scale(row));
      var temporal := 0.0;
      var buffer := buffers.Get(host);
      if buffer.Some? && |buffer.value| >= config.seqLen {
        temporal := LstmScore(m.error(ScaleAll(m, buffer.value)), m.threshold);
        LstmScoreIsRelativeError(m.error(ScaleAll(m, buffer.value)), m.threshold);
      }
      CombineIsLarger(point, temporal);
      return Some(Combine(point, temporal));
    }
  }

  /** Neither the number of buffers nor the length of one ever exceeds its bound. */
  ghost predicate Bounded(c: Config, b: Buffers) {
    |b.keys| <= c.maxBuffers && forall h | h in b.vals :: |b.vals[h]| <= c.seqLen
  }

  lemma UpdateKeepsBounded(c: Config, b: Buffers, s: Sample)
    requires c.Valid() && b.Valid() && Bounded(c, b)
    ensures Bounded(c, UpdateBuffers(c, b, s))
    ensures s.host in UpdateBuffers(c, b, s).vals
  {
    if s.host !in b.vals && |b.keys| >= c.maxBuffers {
      WithoutProperties(b.keys, Shortest(b.keys, b.vals));
    }
  }

  lemma {:induction false} BuffersBounded(c: Config, obs: seq<Sample>)
    requires c.Valid()
    ensures Bounded(c, Replay(c, obs))
    ensures obs != [] ==> obs[|obs| - 1].host in Replay(c, obs).vals
  {
    if obs != [] {
      BuffersBounded(c, obs[..|obs| - 1]);
      UpdateKeepsBounded(c, Replay(c, obs[..|obs| - 1]), obs[|obs| - 1]);
    }
  }

  /* ---- when the live buffers hold what the batch scorer assumes ---- */

  lemma LastHasBuffer(c: Config, obs: seq<Sample>, s: Sample)
    requires c.Valid()
    ensures var b := Replay(c, obs + [s]);
            |b.keys| <= c.maxBuffers && s.host in b.vals && |b.vals[s.host]| <= c.seqLen
  {
    hide Replay;
    BuffersBounded(c, obs + [s]);
  }

  /** Rows of host `h` since its buffer was last created. */
  ghost function RowsSince(c: Config, obs: seq<Sample>, h: Host): nat
    requires c.Valid()
  {
    if obs == [] then 0
    else
      var init := obs[..|obs| - 1];
      if obs[|obs| - 1].host != h then RowsSince(c, init, h)
      else if h in Replay(c, init).vals then RowsSince(c, init, h) + 1
      else 1
  }

  lemma RowsSinceNext(c: Config, obs: seq<Sample>, s: Sample, h: Host)
    requires c.Valid()
    ensures RowsSince(c, obs + [s], h) ==
            if s.host != h then RowsSince(c, obs, h)
            else if h in Replay(c, obs).vals then RowsSince(c, obs, h) + 1 else 1
  {
    hide Replay;
    assert (obs + [s])[..|obs|] == obs;
  }

  /** A live buffer of host `h` holds the newest of the rows that came since it was created. */
  ghost predicate HoldsSince(c: Config, obs: seq<Sample>, h: Host)
    requires c.Valid()
  {
    var vals, own, since := Replay(c, obs).vals, OwnRows(obs, h), RowsSince(c, obs, h);
    since <= |own| && (h in vals ==> vals[h] == Newest(own, if since < c.seqLen then since else c.seqLen))
  }

  /** Pushing to the newest `n` rows, or to an empty buffer. */
  lemma PushSince(own: seq<Row>, row: Row, n: nat, cap: nat)
    requires n <= |own| && cap > 0
    ensures Push(Newest(own, if n < cap then n else cap), row, cap) ==
            Newest(own + [row], if n + 1 < cap then n + 1 else cap)
    ensures Push([], row, cap) == Newest(own + [row], 1)
  {
    if n < cap {
      assert Newest(own, n) + [row] == Newest(own + [row], n + 1);
    } else {
      PushNewest(own, row, cap);
    }
    assert [] + [row] == [row];
  }

  lemma UpdatedBuffer(c: Config, b: Buffers, s: Sample, h: Host)
    requires c.Valid() && b.Valid()
    ensures var after, q := UpdateBuffers(c, b, s).vals, if s.host in b.vals then b.vals[s.host] else [];
            && (h != s.host && h in after ==> h in b.vals && after[h] == b.vals[h])
            && s.host in after && after[s.host] == Push(q, s.row, c.seqLen)
  {
    hide Push, Shortest;
  }

  lemma HoldsSinceNext(c: Config, obs: seq<Sample>, s: Sample, h: Host)
    requires c.Valid() && HoldsSince(c, obs, h)
    ensures HoldsSince(c, obs + [s], h)
  {
    hide OwnRows, Newest, Push, Replay, RowsSince, UpdateBuffers;
    ReplayNext(c, obs, s);
    UpdatedBuffer(c, Replay(c, obs), s, h);
    RowsSinceNext(c, obs, s, h);
    OwnRowsAppend(obs, s, h);
    PushSince(OwnRows(obs, h), s.row, RowsSince(c, obs, h), c.seqLen);
    assert OwnRows(obs, h) + [] == OwnRows(obs, h);
  }

  lemma {:induction false} BufferHoldsSince(c: Config, obs: seq<Sample>, h: Host)
    requires c.Valid()
    ensures HoldsSince(c, obs, h)
  {
    if obs != [] {
      hide *;
      var n := |obs| - 1;
      BufferHoldsSince(c, obs[..n], h);
      HoldsSinceNext(c, obs[..n], obs[n], h);
      assert obs == obs[..n] + [obs[n]];
    }
  }

  /** If the host of row `i` has had `seqLen` rows, it has had them since its buffer was last created. */
  ghost predicate Refilled(c: Config, obs: seq<Sample>, i: nat)
    requires c.Valid() && i < |obs|
  {
    |OwnRows(obs[..i + 1], obs[i].host)| >= c.seqLen ==> RowsSince(c, obs[..i + 1], obs[i].host) >= c.seqLen
  }

  ghost predicate AllRefilled(c: Config, obs: seq<Sample>)
    requires c.Valid()
  {
    forall i | 0 <= i < |obs| :: Refilled(c, obs, i)
  }

  /** The buffer that row `i` is scored on is full after `seqLen` rows, and is then the window of the batch scorer. */
  lemma BufferOfRow(c: Config, obs: seq<Sample>, i: nat)
    requires c.Valid() && i < |obs|
    ensures obs[i].host in Replay(c, obs[..i + 1]).vals
    ensures var buffer := Replay(c, obs[..i + 1]).vals[obs[i].host];
            && (|buffer| >= c.seqLen <==> Full(obs, c.seqLen, i) && Refilled(c, obs, i))
            && (|buffer| >= c.seqLen ==> buffer == LiveWindow(obs, c.seqLen, i))
  {
    hide Replay, OwnRows, RowsSince;
    BufferHoldsSince(c, obs[..i + 1], obs[i].host);
    assert obs[..i + 1] == obs[..i] + [obs[i]];
    LastHasBuffer(c, obs[..i], obs[i]);
  }

  /** In time order, every full buffer the engine holds right after an update of its host. */
  ghost function HeldBuffers(c: Config, obs: seq<Sample>): seq<seq<Row>>
    requires c.Valid()
  {
    if obs == [] then []
    else
      var b, h := Replay(c, obs), obs[|obs| - 1].host;
      HeldBuffers(c, obs[..|obs| - 1]) + if h in b.vals && |b.vals[h]| >= c.seqLen then [b.vals[h]] else []
  }

  lemma AllRefilledNext(c: Config, obs: seq<Sample>, s: Sample)
    requires c.Valid()
    ensures AllRefilled(c, obs + [s]) <==> AllRefilled(c, obs) && Refilled(c, obs + [s], |obs|)
  {
    hide OwnRows, RowsSince;
    var all := obs + [s];
    forall i | 0 <= i < |obs| ensures Refilled(c, all, i) <==> Refilled(c, obs, i) {
      assert all[..i + 1] == obs[..i + 1];
    }
  }

  lemma FullBuffersNext(obs: seq<Sample>, s: Sample, len: nat)
    ensures var all := obs + [s];
            FullBuffers(all, len) ==
            FullBuffers(obs, len) + (if Full(all, len, |obs|) then [LiveWindow(all, len, |obs|)] else [])
  {
    hide Full, LiveWindow;
    assert (obs + [s])[..|obs|] == obs;
  }

  lemma HeldBuffersStep(c: Config, obs: seq<Sample>, s: Sample)
    requires c.Valid()
    ensures var vals := Replay(c, obs + [s]).vals;
            HeldBuffers(c, obs + [s]) ==
            HeldBuffers(c, obs)
            + (if s.host in vals && |vals[s.host]| >= c.seqLen then [vals[s.host]] else [])
  {
    hide Replay;
    assert (obs + [s])[..|obs|] == obs;
  }

  lemma HeldBuffersNext(c: Config, obs: seq<Sample>, s: Sample)
    requires c.Valid()
    ensures var all := obs + [s];
            HeldBuffers(c, all) ==
            HeldBuffers(c, obs)
            + (if Full(all, c.seqLen, |obs|) && Refilled(c, all, |obs|) then [LiveWindow(all, c.seqLen, |obs|)] else [])
  {
    hide *;
    var all := obs + [s];
    HeldBuffersStep(c, obs, s);
    BufferOfRow(c, all, |obs|);
    assert all[..|obs| + 1] == all && all[|obs|] == s;
  }

  lemma ShortIsRefilled(c: Config, obs: seq<Sample>, i: nat)
    requires c.Valid() && i < |obs| && !Full(obs, c.seqLen, i)
    ensures Refilled(c, obs, i)
  {
    hide OwnRows, RowsSince;
  }

  /** Full buffers are missing from the engine exactly when some host was evicted and has not refilled its buffer. */
  lemma {:induction false} HeldAreFullIff(c: Config, obs: seq<Sample>)
    requires c.Valid()
    ensures var held, full := HeldBuffers(c, obs), FullBuffers(obs, c.seqLen);
            && multiset(held) <= multiset(full)
            && (AllRefilled(c, obs) ==> held == full) && (!AllRefilled(c, obs) ==> |held| < |full|)
  {
    hide HeldBuffers, FullBuffers, LiveWindow, Full, Refilled;
    if obs == [] {
      NothingHeld(c);
    } else {
      var n := |obs| - 1;
      hide AllRefilled;
      assert obs == obs[..n] + [obs[n]];
      HeldAreFullIff(c, obs[..n]);
      AllRefilledNext(c, obs[..n], obs[n]);
      HeldBuffersNext(c, obs[..n], obs[n]);
      FullBuffersNext(obs[..n], obs[n], c.seqLen);
      if !Full(obs, c.seqLen, n) {
        ShortIsRefilled(c, obs, n);
      }
    }
  }

  lemma NothingHeld(c: Config)
    requires c.Valid()
    ensures HeldBuffers(c, []) == FullBuffers([], c.seqLen) == [] && AllRefilled(c, [])
  {
  }

  /**
   * Every full buffer the engine holds over the stream is a training sequence, and the two are the same multiset
   * exactly when every host with `seqLen` rows has had them since its buffer was last created.
   */
  lemma TrainingSequencesAreHeldBuffersIff(c: Config, obs: seq<Sample>)
    requires c.Valid()
    ensures multiset(HeldBuffers(c, obs)) <= multiset(HostSequences(obs, c.seqLen))
    ensures multiset(HostSequences(obs, c.seqLen)) == multiset(HeldBuffers(c, obs)) <==> AllRefilled(c, obs)
  {
    hide HeldBuffers, FullBuffers, HostSequences, AllRefilled;
    HeldAreFullIff(c, obs);
    TrainingSequencesAreLiveBuffers(obs, c.seqLen);
    assert |multiset(HeldBuffers(c, obs))| == |HeldBuffers(c, obs)|;
    assert |multiset(FullBuffers(obs, c.seqLen))| == |FullBuffers(obs, c.seqLen)|;
  }

  /** Sample `i` comes from a host that was seen before but whose buffer has been evicted since. */
  ghost predicate Returns(c: Config, obs: seq<Sample>, i: nat)
    requires c.Valid() && i < |obs|
  {
    obs[i].host !in Replay(c, obs[..i]).vals && OwnRows(obs[..i], obs[i].host) != []
  }

  /** Host `h` never returns after an eviction. */
  ghost predicate Stays(c: Config, obs: seq<Sample>, h: Host)
    requires c.Valid()
  {
    forall i | 0 <= i < |obs| && obs[i].host == h :: !Returns(c, obs, i)
  }

  ghost predicate NoReturns(c: Config, obs: seq<Sample>)
    requires c.Valid()
  {
    forall i | 0 <= i < |obs| :: !Returns(c, obs, i)
  }

  lemma StaysPrefix(c: Config, obs: seq<Sample>, n: nat, h: Host)
    requires c.Valid() && n <= |obs| && Stays(c, obs, h)
    ensures Stays(c, obs[..n], h)
  {
    hide Replay, OwnRows;
    forall i | 0 <= i < n && obs[..n][i].host == h ensures !Returns(c, obs[..n], i) {
      assert obs[..n][..i] == obs[..i] && !Returns(c, obs, i);
    }
  }

  lemma StaysNext(c: Config, obs: seq<Sample>, s: Sample, h: Host)
    requires c.Valid() && Stays(c, obs + [s], h)
    ensures Stays(c, obs, h)
    ensures s.host == h ==> h in Replay(c, obs).vals || OwnRows(obs, h) == []
  {
    hide Replay, OwnRows;
    StaysPrefix(c, obs + [s], |obs|, h);
    assert (obs + [s])[..|obs|] == obs;
    assert s.host == h ==> !Returns(c, obs + [s], |obs|);
  }

  lemma {:induction false} StayingHostKeepsRows(c: Config, obs: seq<Sample>, h: Host)
    requires c.Valid() && Stays(c, obs, h)
    ensures RowsSince(c, obs, h) == |OwnRows(obs, h)|
  {
    if obs != [] {
      hide *;
      var n := |obs| - 1;
      var init, s := obs[..n], obs[n];
      assert obs == init + [s];
      StaysNext(c, init, s, h);
      StayingHostKeepsRows(c, init, h);
      RowsSinceNext(c, init, s, h);
      OwnRowsAppend(init, s, h);
    }
  }

  /** A host that never returns is scored alike, whatever happens to the others. */
  lemma StayingHostIsRefilled(c: Config, obs: seq<Sample>, i: nat)
    requires c.Valid() && i < |obs| && Stays(c, obs[..i + 1], obs[i].host)
    ensures Refilled(c, obs, i)
  {
    hide OwnRows, RowsSince, Stays;
    StayingHostKeepsRows(c, obs[..i + 1], obs[i].host);
  }

  lemma NoReturnsRefilled(c: Config, obs: seq<Sample>)
    requires c.Valid() && NoReturns(c, obs)
    ensures AllRefilled(c, obs)
  {
    hide Refilled, Returns;
    forall i | 0 <= i < |obs| ensures Refilled(c, obs, i) {
      StaysPrefix(c, obs, i + 1, obs[i].host);
      StayingHostIsRefilled(c, obs, i);
    }
  }

  /** As long as the distinct hosts fit, nothing is ever evicted. */
  lemma {:induction false} FewHostsNeverReturn(c: Config, obs: seq<Sample>)
    requires c.Valid() && |FirstSeen(obs)| <= c.maxBuffers
    ensures NoReturns(c, obs)
    ensures Replay(c, obs).keys == FirstSeen(obs)
  {
    if obs != [] {
      var n := |obs| - 1;
      var init := obs[..n];
      assert obs == init + [obs[n]];
      FewHostsNeverReturn(c, init);
      KnownOrNewKey(c, init, obs[n]);
      assert !Returns(c, obs, n) by { NoRowsBeforeFirst(init, obs[n].host); }
      hide Replay, OwnRows, FirstSeen;
      forall i | 0 <= i < n ensures !Returns(c, obs, i) {
        assert obs[..i] == init[..i] && !Returns(c, init, i);
      }
    }
  }

  lemma KnownOrNewKey(c: Config, init: seq<Sample>, s: Sample)
    requires c.Valid() && Replay(c, init).keys == FirstSeen(init)
    requires s.host in FirstSeen(init) || |FirstSeen(init)| < c.maxBuffers
    ensures Replay(c, init + [s]).keys == FirstSeen(init + [s])
  {
    assert (init + [s])[..|init|] == init;
  }

  /* ---- the offline batch scorer ---- */

  ghost function TemporalPart(m: Models, len: nat, obs: seq<Sample>, i: nat): real
    requires i < |obs|
  {
    if Full(obs, len, i) then LstmScore(m.error(ScaleAll(m, LiveWindow(obs, len, i))), m.threshold) else 0.0
  }

  ghost function BatchScore(m: Models, len: nat, obs: seq<Sample>, i: nat): real
    requires i < |obs|
  {
    Combine(m.pointScore(m.scale(obs[i].row)), TemporalPart(m, len, obs, i))
  }

  /** Rows score nothing by themselves, and every window has the error of the threshold. */
  function AlwaysOff(): Models {
    Models(row => row, _ => 0.0, _ => 1.0, 1.0)
  }

  /** The batch score of row `i` is what the live engine returns right after its i-th update. */
  ghost predicate ScoresAgree(c: Config, m: Models, obs: seq<Sample>, i: nat)
    requires c.Valid() && i < |obs|
  {
    EngineScore(c, m, Replay(c, obs[..i + 1]), obs[i].host, obs[i].row) == BatchScore(m, c.seqLen, obs, i)
  }

  lemma ScoredAlike(c: Config, m: Models, obs: seq<Sample>, i: nat)
    requires c.Valid() && i < |obs| && Refilled(c, obs, i)
    ensures ScoresAgree(c, m, obs, i)
  {
    hide Replay, OwnRows, RowsSince, LiveWindow, Full, Refilled, ScaleAll, Combine, LstmScore;
    BufferOfRow(c, obs, i);
  }

  lemma ScoredApart(c: Config, obs: seq<Sample>, i: nat)
    requires c.Valid() && i < |obs| && !Refilled(c, obs, i)
    ensures EngineScore(c, AlwaysOff(), Replay(c, obs[..i + 1]), obs[i].host, obs[i].row) == 0.0
    ensures BatchScore(AlwaysOff(), c.seqLen, obs, i) == 0.5
  {
    hide Replay, RowsSince, LiveWindow, ScaleAll;
    BufferOfRow(c, obs, i);
    hide OwnRows;
  }

  /**
   * Offline equals online: row `i` gets the same score from both scorers, whatever the models, exactly when its host,
   * if it has `seqLen` rows at all, has had them since its buffer was last created.
   */
  lemma OfflineEqualsLiveIff(c: Config, obs: seq<Sample>, i: nat)
    requires c.Valid() && i < |obs|
    ensures (forall m: Models :: ScoresAgree(c, m, obs, i)) <==> Refilled(c, obs, i)
  {
    hide Refilled, Replay, EngineScore, BatchScore;
    if Refilled(c, obs, i) {
      forall m: Models ensures ScoresAgree(c, m, obs, i) {
        ScoredAlike(c, m, obs, i);
      }
    } else {
      ScoredApart(c, obs, i);
      assert !ScoresAgree(c, AlwaysOff(), obs, i);
    }
  }

  /** Both scorers agree on every row of a stream exactly when every row finds its host's buffer refilled. */
  lemma OfflineEqualsLiveThroughoutIff(c: Config, obs: seq<Sample>)
    requires c.Valid()
    ensures (forall m: Models, i | 0 <= i < |obs| :: ScoresAgree(c, m, obs, i)) <==> AllRefilled(c, obs)
  {
    hide Refilled, ScoresAgree;
    if AllRefilled(c, obs) {
      forall m: Models, i | 0 <= i < |obs| ensures ScoresAgree(c, m, obs, i) {
        OfflineEqualsLiveIff(c, obs, i);
      }
    } else {
      var i :| 0 <= i < |obs| && !Refilled(c, obs, i);
      OfflineEqualsLiveIff(c, obs, i);
    }
  }

  lemma RowSurvives(a: Sample, b: Sample)
    requires a.host != b.host
    ensures |OwnRows([a, b], a.host)| == 1
  {
    OwnRowsAppend([], a, a.host);
    OwnRowsAppend([a], b, a.host);
    assert [] + [a] == [a] && [a] + [b] == [a, b];
  }

  lemma EvictedByNext(c: Config, a: Sample, b: Sample)
    requires c.Valid() && c.maxBuffers == 1 && a.host != b.host
    ensures a.host !in Replay(c, [a, b]).vals
  {
    assert [] + [a] == [a] && [a] + [b] == [a, b];
    ReplayNext(c, [], a);
    ReplayNext(c, [a], b);
    assert Replay(c, [a]).keys == [a.host];
  }

  /** Room for one host only: `a` comes back after `b` evicted it, and its second row is scored without a window. */
  lemma EvictionBreaksAgreement(a: Sample, b: Sample)
    requires a.host != b.host
    ensures var c, m, obs := Config(2, 1), AlwaysOff(), [a, b, a];
            EngineScore(c, m, Replay(c, obs), a.host, a.row) == 0.0 && BatchScore(m, 2, obs, 2) == 0.5
  {
    hide Replay, OwnRows, RowsSince, EngineScore, BatchScore;
    var c, obs := Config(2, 1), [a, b, a];
    assert [a, b] + [a] == obs && obs[..3] == obs;
    EvictedByNext(c, a, b);
    RowSurvives(a, b);
    RowsSinceNext(c, [a, b], a, a.host);
    OwnRowsAppend([a, b], a, a.host);
    ScoredApart(c, obs, 2);
  }

  /** A host may return and no score differ: it has too few rows for a window in either scorer. */
  lemma ReturnsMayAgree(a: Sample, b: Sample)
    requires a.host != b.host
    ensures !NoReturns(Config(3, 1), [a, b, a]) && AllRefilled(Config(3, 1), [a, b, a])
  {
    hide Replay, OwnRows, RowsSince;
    var c, obs := Config(3, 1), [a, b, a];
    assert [a, b] + [a] == obs && obs[..2] == [a, b];
    EvictedByNext(c, a, b);
    RowSurvives(a, b);
    assert Returns(c, obs, 2);
    OwnRowsAppend([a, b], a, a.host);
    assert obs[..3] == obs;
  }

  /** Row `k` of host `h` is scored on the window that ends with it, once `len` rows are there. */
  lemma WindowOfRow(obs: seq<Sample>, h: Host, len: nat, k: nat)
    requires len > 0 && k < |Indices(obs, h)|
    ensures Full(obs, len, Indices(obs, h)[k]) <==> k + 1 >= len
    ensures k + 1 >= len ==>
              LiveWindow(obs, len, Indices(obs, h)[k]) == Windows(OwnRows(obs, h), len)[k + 1 - len]
  {
    hide OwnRows, Indices, Windows;
    OwnRowsUpTo(obs, h, k);
    var own := OwnRows(obs, h);
    if k + 1 >= len {
      assert own[..k + 1][k + 1 - len..] == own[k + 1 - len..k + 1];
      assert own[k + 1 - len..k + 1] == own[k + 1 - len..k + 1 - len + len];
    }
  }

  lemma ScaledWindow(m: Models, rows: seq<Row>, len: nat, t: nat)
    requires t < |Windows(rows, len)|
    ensures |Windows(ScaleAll(m, rows), len)| == |Windows(rows, len)|
    ensures Windows(ScaleAll(m, rows), len)[t] == ScaleAll(m, Windows(rows, len)[t])
  {
  }

  /** Reconstruction errors of all sequences, computed batch by batch. */
  method SequenceErrors(m: Models, sequences: seq<seq<Row>>, batch: nat) returns (errs: array<real>)
    requires batch > 0
    ensures fresh(errs) && errs.Length == |sequences|
    ensures forall k | 0 <= k < |sequences| :: errs[k] == m.error(sequences[k])
  {
    errs := new real[|sequences|];
    var a := 0;
    while a < |sequences|
      invariant 0 <= a
      invariant forall k | 0 <= k < a && k < |sequences| :: errs[k] == m.error(sequences[k])
    {
      var end := if a + batch < |sequences| then a + batch else |sequences|;
      for k := a to end
        invariant forall j | 0 <= j < k :: errs[j] == m.error(sequences[j])
      {
        errs[k] := m.error(sequences[k]);
      }
      a := a + batch;
    }
  }

  /** Rows of host `h` hold their final values, and every other row is as it was. */
  twostate predicate HostScored(m: Models, len: nat, obs: seq<Sample>, h: Host, lstm: array<real>, valid: array<bool>)
    requires lstm.Length == valid.Length == |obs|
    reads lstm, valid
  {
    forall i | 0 <= i < |obs| ::
      if obs[i].host == h
      then (valid[i] <==> Full(obs, len, i)) && lstm[i] == TemporalPart(m, len, obs, i)
      else valid[i] == old(valid[i]) && lstm[i] == old(lstm[i])
  }

  method ScoreHost(m: Models, len: nat, obs: seq<Sample>, h: Host, idx: seq<nat>, batch: nat,
                   lstm: array<real>, valid: array<bool>)
    requires len > 0 && batch > 0 && idx == Indices(obs, h)
    requires lstm.Length == valid.Length == |obs|
    requires forall k | 0 <= k < |idx| :: lstm[idx[k]] == 0.0 && !valid[idx[k]]
    modifies lstm, valid
    ensures HostScored(m, len, obs, h, lstm, valid)
  {
    hide OwnRows, Windows, LstmScore, ScaleAll, Indices, LiveWindow, Full;
    IndicesIncrease(obs, h);
    if |idx| >= len {
      var own := Rows(obs, idx);
      assert own == OwnRows(obs, h) by { OwnRowsIs(obs, h); }
      var sequences := Windows(ScaleAll(m, own), len);
      var errs := SequenceErrors(m, sequences, batch);
      forall k | 0 <= k < len - 1 ensures !Full(obs, len, idx[k]) {
        WindowOfRow(obs, h, len, k);
      }
      for t := 0 to |sequences|
        invariant lstm.Length == valid.Length == |obs|
        invariant forall k | 0 <= k < len - 1 + t && k < |idx| ::
                    (valid[idx[k]] <==> Full(obs, len, idx[k])) && lstm[idx[k]] == TemporalPart(m, len, obs, idx[k])
        invariant forall k | len - 1 + t <= k < |idx| :: lstm[idx[k]] == 0.0 && !valid[idx[k]]
        invariant forall i | 0 <= i < |obs| && obs[i].host != h :: valid[i] == old(valid[i]) && lstm[i] == old(lstm[i])
        invariant forall k | 0 <= k < |sequences| :: errs[k] == m.error(sequences[k])
      {
        var k := len - 1 + t;
        WindowOfRow(obs, h, len, k);
        ScaledWindow(m, own, len, t);
        lstm[idx[k]] := LstmScore(errs[t], m.threshold);
        valid[idx[k]] := true;
      }
    }
    forall i | 0 <= i < |obs| && obs[i].host == h
      ensures (valid[i] <==> Full(obs, len, i)) && lstm[i] == TemporalPart(m, len, obs, i)
    {
      var k := IndexPosition(obs, i);
      WindowOfRow(obs, h, len, k);
    }
  }

  lemma OwnRowsIs(obs: seq<Sample>, h: Host)
    ensures OwnRows(obs, h) == Rows(obs, Indices(obs, h))
  {
  }

  /** The flags and temporal scores of all rows, host by host. */
  method ScoreHosts(m: Models, len: nat, obs: seq<Sample>, batch: nat) returns (valid: array<bool>, lstm: array<real>)
    requires len > 0 && batch > 0
    ensures fresh(valid) && fresh(lstm) && valid.Length == lstm.Length == |obs|
    ensures forall i | 0 <= i < |obs| :: (valid[i] <==> Full(obs, len, i)) && lstm[i] == TemporalPart(m, len, obs, i)
  {
    hide Full, TemporalPart, Indices, FirstSeen, NoDuplicates;
    lstm := new real[|obs|](_ => 0.0);
    valid := new bool[|obs|](_ => false);
    var byHost := GroupByHost(obs);
    var hosts := byHost.keys;
    for p := 0 to |hosts|
      invariant forall i | 0 <= i < |obs| && obs[i].host in hosts[..p] ::
                  (valid[i] <==> Full(obs, len, i)) && lstm[i] == TemporalPart(m, len, obs, i)
      invariant forall i | 0 <= i < |obs| && obs[i].host !in hosts[..p] :: lstm[i] == 0.0 && !valid[i]
    {
      var h := hosts[p];
      assert h in byHost.keys;
      NotYetListed(hosts, p);
      ScoreHost(m, len, obs, h, byHost.vals[h], batch, lstm, valid);
    }
    assert hosts[..|hosts|] == hosts;
  }

  lemma NotYetListed(hosts: seq<Host>, p: nat)
    requires p < |hosts| && NoDuplicates(hosts)
    ensures hosts[p] !in hosts[..p]
    ensures forall h :: h in hosts[..p + 1] <==> h in hosts[..p] || h == hosts[p]
  {
    assert hosts[..p + 1] == hosts[..p] + [hosts[p]];
  }

  lemma TemporalPartIs(m: Models, len: nat, obs: seq<Sample>, i: nat)
    requires i < |obs|
    ensures var x := TemporalPart(m, len, obs, i);
            if Full(obs, len, i) then IsRelativeError(x, m.error(ScaleAll(m, LiveWindow(obs, len, i))), m.threshold)
            else x == 0.0
  {
    hide Full, IsRelativeError, LstmScore, LiveWindow;
    LstmScoreIsRelativeError(m.error(ScaleAll(m, LiveWindow(obs, len, i))), m.threshold);
  }

  /** `row_scores`: every row gets the score of the live engine's formula, and a flag for its buffer. */
  method RowScores(m: Models, len: nat, obs: seq<Sample>, batch: nat)
      returns (valid: array<bool>, lstm: array<real>, score: array<real>)
    requires len > 0 && batch > 0
    ensures valid.Length == lstm.Length == score.Length == |obs|
    ensures forall i | 0 <= i < |obs| :: valid[i] <==> Full(obs, len, i)
    ensures forall i | 0 <= i < |obs| :: lstm[i] == TemporalPart(m, len, obs, i)
    ensures forall i | 0 <= i < |obs| :: score[i] == BatchScore(m, len, obs, i)
    ensures forall i | 0 <= i < |obs| ::
              IsLargerClipped(score[i], m.pointScore(m.scale(obs[i].row)), lstm[i])
              && if valid[i] then IsRelativeError(lstm[i], m.error(ScaleAll(m, LiveWindow(obs, len, i))), m.threshold)
                 else lstm[i] == 0.0
  {
    hide Full, TemporalPart, Combine, IsLargerClipped, IsRelativeError;
    valid, lstm := ScoreHosts(m, len, obs, batch);
    score := new real[|obs|];
    for i := 0 to |obs|
      modifies score
      invariant forall k | 0 <= k < i :: score[k] == BatchScore(m, len, obs, k)
      invariant forall k | 0 <= k < i :: IsLargerClipped(score[k], m.pointScore(m.scale(obs[k].row)), lstm[k])
    {
      CombineIsLarger(m.pointScore(m.scale(obs[i].row)), lstm[i]);
      score[i] := Combine(m.pointScore(m.scale(obs[i].row)), lstm[i]);
    }
    forall i | 0 <= i < |obs|
      ensures if valid[i] then IsRelativeError(lstm[i], m.error(ScaleAll(m, LiveWindow(obs, len, i))), m.threshold)
              else lstm[i] == 0.0
    {
      TemporalPartIs(m, len, obs, i);
    }
  }
}
