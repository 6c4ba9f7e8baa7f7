/** Per-host rows and sliding windows: what a training sequence and a live buffer are made of. */
module HostWindows {
  import opened Deque
  import opened PyDict

  type Host = string
  type Row = seq<real>

  /** One host feature vector, in time order. */
  datatype Sample = Sample(host: Host, row: Row)

  /** Positions of the samples of host `h`, in time order. */
  function Indices(obs: seq<Sample>, h: Host): (r: seq<nat>)
    ensures |r| <= |obs|
    ensures forall k | 0 <= k < |r| :: r[k] < |obs| && obs[r[k]].host == h
  {
    if obs == [] then []
    else
      var init := Indices(obs[..|obs| - 1], h);
      if obs[|obs| - 1].host == h then init + [|obs| - 1] else init
  }

  function Rows(obs: seq<Sample>, idx: seq<nat>): (r: seq<Row>)
    requires forall k | 0 <= k < |idx| :: idx[k] < |obs|
    ensures |r| == |idx|
    ensures forall k | 0 <= k < |idx| :: r[k] == obs[idx[k]].row
  {
    seq(|idx|, k requires 0 <= k < |idx| => obs[idx[k]].row)
  }

  ghost function OwnRows(obs: seq<Sample>, h: Host): (r: seq<Row>)
    ensures |r| == |Indices(obs, h)|
  {
    Rows(obs, Indices(obs, h))
  }

  lemma OwnRowsAppend(obs: seq<Sample>, s: Sample, h: Host)
    ensures OwnRows(obs + [s], h) == OwnRows(obs, h) + (if s.host == h then [s.row] else [])
  {
    assert (obs + [s])[..|obs|] == obs;
  }

  /** Every position is listed, in increasing order, under its own host; `k` rows of that host precede it. */
  lemma {:induction false} IndexPosition(obs: seq<Sample>, i: nat) returns (k: nat)
    requires i < |obs|
    ensures k < |Indices(obs, obs[i].host)| && Indices(obs, obs[i].host)[k] == i
  {
    var n := |obs| - 1;
    if i < n {
      k := IndexPosition(obs[..n], i);
    } else {
      k := |Indices(obs[..n], obs[i].host)|;
    }
  }

  lemma {:induction false} IndicesIncrease(obs: seq<Sample>, h: Host)
    ensures forall j, k | 0 <= j < k < |Indices(obs, h)| :: Indices(obs, h)[j] < Indices(obs, h)[k]
  {
    if obs != [] {
      IndicesIncrease(obs[..|obs| - 1], h);
    }
  }

  /** Cutting the observations right after the k-th row of `h` cuts its own rows after k + 1 of them. */
  lemma {:induction false} OwnRowsUpTo(obs: seq<Sample>, h: Host, k: nat)
    requires k < |Indices(obs, h)|
    ensures OwnRows(obs[..Indices(obs, h)[k] + 1], h) == OwnRows(obs, h)[..k + 1]
  {
    hide OwnRows;
    var n := |obs| - 1;
    var init := obs[..n];
    assert obs == init + [obs[n]];
    OwnRowsAppend(init, obs[n], h);
    if k < |Indices(init, h)| {
      OwnRowsUpTo(init, h, k);
      assert obs[..Indices(obs, h)[k] + 1] == init[..Indices(init, h)[k] + 1];
    } else {
      assert obs[..n + 1] == obs;
    }
  }

  /** `_to_sequences`: all windows of `len` consecutive rows; none when there are fewer rows. */
  function Windows(rows: seq<Row>, len: nat): (w: seq<seq<Row>>)
    ensures |w| == if |rows| < len then 0 else |rows| - len + 1
    ensures forall i | 0 <= i < |w| :: w[i] == rows[i..i + len]
  {
    if |rows| < len then []
    else seq(|rows| - len + 1, i requires 0 <= i < |rows| - len + 1 => rows[i..i + len])
  }

  lemma WindowsAppend(rows: seq<Row>, row: Row, len: nat)
    requires len > 0
    ensures Windows(rows + [row], len) ==
            Windows(rows, len) + (if |rows| + 1 < len then [] else [Newest(rows + [row], len)])
  {
    var all := rows + [row];
    forall i | 0 <= i < |Windows(rows, len)| ensures Windows(all, len)[i] == Windows(rows, len)[i] {
      assert all[i..i + len] == rows[i..i + len];
    }
    if |all| >= len {
      assert all[|rows| + 1 - len..|rows| + 1] == Newest(all, len);
    }
  }

  /** The live ring buffer after the i-th sample holds `len` rows of its host. */
  ghost predicate Full(obs: seq<Sample>, len: nat, i: nat)
    requires i < |obs|
  {
    |OwnRows(obs[..i + 1], obs[i].host)| >= len
  }

  /** The newest `len` rows of the i-th sample's own host, ending at that sample. */
  ghost function LiveWindow(obs: seq<Sample>, len: nat, i: nat): seq<Row>
    requires i < |obs|
  {
    Newest(OwnRows(obs[..i + 1], obs[i].host), len)
  }

  /** In time order, every full buffer the live engine ever scores. */
  ghost function FullBuffers(obs: seq<Sample>, len: nat): seq<seq<Row>> {
    if obs == [] then []
    else
      var n := |obs| - 1;
      FullBuffers(obs[..n], len) + (if Full(obs, len, n) then [LiveWindow(obs, len, n)] else [])
  }

  /** Hosts in order of first appearance: the key order of `rows_by_host`. */
  function FirstSeen(obs: seq<Sample>): (hs: seq<Host>)
    ensures NoDuplicates(hs)
    ensures forall i | 0 <= i < |obs| :: obs[i].host in hs
  {
    if obs == [] then []
    else
      var init, h := FirstSeen(obs[..|obs| - 1]), obs[|obs| - 1].host;
      assert forall i | 0 <= i < |obs| - 1 :: obs[i] == obs[..|obs| - 1][i];
      if h in init then init else init + [h]
  }

  ghost function SequencesOf(hs: seq<Host>, obs: seq<Sample>, len: nat): seq<seq<Row>> {
    if hs == [] then []
    else SequencesOf(hs[..|hs| - 1], obs, len) + Windows(OwnRows(obs, hs[|hs| - 1]), len)
  }

  ghost function HostSequences(obs: seq<Sample>, len: nat): seq<seq<Row>> {
    SequencesOf(FirstSeen(obs), obs, len)
  }

  lemma SequencesOfNext(hs: seq<Host>, h: Host, obs: seq<Sample>, len: nat)
    ensures SequencesOf([], obs, len) == []
    ensures SequencesOf(hs + [h], obs, len) == SequencesOf(hs, obs, len) + Windows(OwnRows(obs, h), len)
  {
    assert (hs + [h])[..|hs|] == hs;
  }

  lemma NobodysBuffer(obs: seq<Sample>, s: Sample, len: nat)
    ensures NewBuffer([], obs, s, len) == []
  {
  }

  /** One host's windows gain exactly its new buffer. */
  lemma HostWindowsAppend(hs: seq<Host>, h: Host, obs: seq<Sample>, s: Sample, len: nat)
    requires len > 0 && h !in hs
    ensures Windows(OwnRows(obs + [s], h), len)
         == Windows(OwnRows(obs, h), len) + if s.host == h then NewBuffer(hs + [h], obs, s, len) else []
    ensures NewBuffer(hs + [h], obs, s, len) == NewBuffer(if s.host == h then hs + [h] else hs, obs, s, len)
    ensures s.host == h ==> NewBuffer(hs, obs, s, len) == []
  {
    hide OwnRows, Windows, Newest;
    OwnRowsAppend(obs, s, h);
    WindowsAppend(OwnRows(obs, h), s.row, len);
    assert OwnRows(obs, h) + [] == OwnRows(obs, h);
    assert Windows(OwnRows(obs, h), len) + [] == Windows(OwnRows(obs, h), len);
  }

  lemma {:induction false} SequencesOfAppend(hs: seq<Host>, obs: seq<Sample>, s: Sample, len: nat)
    requires len > 0 && NoDuplicates(hs)
    ensures multiset(SequencesOf(hs, obs + [s], len)) ==
            multiset(SequencesOf(hs, obs, len)) + multiset(NewBuffer(hs, obs, s, len))
  {
    hide *;
    if hs == [] {
      SequencesOfNext([], s.host, obs, len);
      SequencesOfNext([], s.host, obs + [s], len);
      NobodysBuffer(obs, s, len);
    } else {
      var init, h := hs[..|hs| - 1], hs[|hs| - 1];
      assert hs == init + [h];
      FrontHasNoDuplicates(init, h);
      SequencesOfAppend(init, obs, s, len);
      SequencesOfNext(init, h, obs, len);
      SequencesOfNext(init, h, obs + [s], len);
      HostWindowsAppend(init, h, obs, s, len);
    }
  }

  lemma FrontHasNoDuplicates(hs: seq<Host>, h: Host)
    requires NoDuplicates(hs + [h])
    ensures NoDuplicates(hs) && h !in hs
  {
    assert forall i | 0 <= i < |hs| :: (hs + [h])[i] == hs[i];
    assert (hs + [h])[|hs|] == h;
  }

  /** The buffer that becomes full, or moves on while full, when sample `s` arrives. */
  ghost function NewBuffer(hs: seq<Host>, obs: seq<Sample>, s: Sample, len: nat): seq<seq<Row>> {
    var own := OwnRows(obs + [s], s.host);
    if s.host in hs && |own| >= len then [Newest(own, len)] else []
  }

  lemma {:induction false} NoRowsBeforeFirst(obs: seq<Sample>, h: Host)
    ensures h in FirstSeen(obs) <==> OwnRows(obs, h) != []
  {
    if obs != [] {
      var init, s := obs[..|obs| - 1], obs[|obs| - 1];
      NoRowsBeforeFirst(init, h);
      assert obs == init + [s];
      OwnRowsAppend(init, s, h);
    }
  }

  /**
   * Training mirrors inference: for every interleaving of hosts, the training sequences are exactly the
   * full buffers the live engine scores, each as often as it occurs.
   */
  lemma {:induction false} TrainingSequencesAreLiveBuffers(obs: seq<Sample>, len: nat)
    requires len > 0
    ensures multiset(HostSequences(obs, len)) == multiset(FullBuffers(obs, len))
  {
    hide *;
    if obs == [] {
      NothingToTrain(len);
    } else {
      var n := |obs| - 1;
      var init, s := obs[..n], obs[n];
      TrainingSequencesAreLiveBuffers(init, len);
      assert obs == init + [s];
      TrainingSequencesNext(init, s, len);
      LastBuffer(init, s, len);
    }
  }

  lemma NothingToTrain(len: nat)
    ensures HostSequences([], len) == FullBuffers([], len)
  {
  }

  lemma TrainingSequencesNext(init: seq<Sample>, s: Sample, len: nat)
    requires len > 0
    ensures multiset(HostSequences(init + [s], len))
         == multiset(HostSequences(init, len)) + multiset(NewBuffer([s.host], init, s, len))
  {
    hide NewBuffer, SequencesOf, FirstSeen;
    SequencesOfAppend(FirstSeen(init), init, s, len);
    LastHostSequences(init, s, len);
    KnownOrNew(FirstSeen(init), init, s, len);
  }

  lemma KnownOrNew(hs: seq<Host>, init: seq<Sample>, s: Sample, len: nat)
    ensures NewBuffer(hs, init, s, len) + (if s.host in hs then [] else NewBuffer([s.host], init, s, len))
            == NewBuffer([s.host], init, s, len)
  {
    hide OwnRows, Newest;
  }

  lemma LastBuffer(init: seq<Sample>, s: Sample, len: nat)
    ensures FullBuffers(init + [s], len) == FullBuffers(init, len) + NewBuffer([s.host], init, s, len)
  {
    hide OwnRows, Newest;
    assert (init + [s])[..|init|] == init && (init + [s])[..|init| + 1] == init + [s];
  }

  lemma FirstSeenNext(init: seq<Sample>, s: Sample)
    ensures FirstSeen(init + [s]) == if s.host in FirstSeen(init) then FirstSeen(init) else FirstSeen(init) + [s.host]
  {
    assert (init + [s])[..|init|] == init;
  }

  /** The first sample of a host makes a window of its own only for length 1. */
  lemma NewHostWindows(init: seq<Sample>, s: Sample, len: nat)
    requires len > 0 && s.host !in FirstSeen(init)
    ensures Windows(OwnRows(init + [s], s.host), len) == NewBuffer([s.host], init, s, len)
  {
    hide FirstSeen, OwnRows, Newest;
    NoRowsBeforeFirst(init, s.host);
    OwnRowsAppend(init, s, s.host);
    WindowsAppend([], s.row, len);
    assert [] + [s.row] == [s.row];
  }

  lemma LastHostSequences(init: seq<Sample>, s: Sample, len: nat)
    requires len > 0
    ensures multiset(HostSequences(init + [s], len)) ==
            multiset(SequencesOf(FirstSeen(init), init + [s], len))
            + multiset(if s.host in FirstSeen(init) then [] else NewBuffer([s.host], init, s, len))
  {
    hide FirstSeen, OwnRows, Windows, NewBuffer;
    var obs, hs := init + [s], FirstSeen(init);
    FirstSeenNext(init, s);
    if s.host !in hs {
      NewHostWindows(init, s, len);
      assert (hs + [s.host])[..|hs|] == hs;
    }
  }

  ghost function CountOf(hs: seq<Host>, obs: seq<Sample>, len: nat): nat {
    if hs == [] then 0
    else
      var own := |OwnRows(obs, hs[|hs| - 1])|;
      CountOf(hs[..|hs| - 1], obs, len) + (if own + 1 < len then 0 else own + 1 - len)
  }

  /** A host with n rows contributes max(0, n - len + 1) sequences. */
  lemma {:induction false} SequenceCount(hs: seq<Host>, obs: seq<Sample>, len: nat)
    requires len > 0
    ensures |SequencesOf(hs, obs, len)| == CountOf(hs, obs, len)
  {
    if hs != [] {
      SequenceCount(hs[..|hs| - 1], obs, len);
    }
  }

  lemma IndicesNext(init: seq<Sample>, s: Sample)
    ensures forall h :: Indices(init + [s], h) == if s.host == h then Indices(init, h) + [|init|] else Indices(init, h)
  {
    assert (init + [s])[..|init|] == init;
  }

  lemma NoIndicesBeforeFirst(obs: seq<Sample>, h: Host)
    ensures h !in FirstSeen(obs) ==> Indices(obs, h) == []
  {
    hide FirstSeen, Indices;
    assert Indices(obs, h) != [] ==> obs[Indices(obs, h)[0]].host == h;
  }

  /** The dictionary of the positions of every host seen. */
  ghost predicate Groups(d: Dict<Host, seq<nat>>, obs: seq<Sample>) {
    d.Valid() && d.keys == FirstSeen(obs) && forall h | h in d.vals :: d.vals[h] == Indices(obs, h)
  }

  lemma GroupsNext(d: Dict<Host, seq<nat>>, obs: seq<Sample>, s: Sample)
    requires Groups(d, obs)
    ensures Groups(d.Put(s.host, d.GetOr(s.host, []) + [|obs|]), obs + [s])
  {
    hide FirstSeen, Indices, NoDuplicates;
    FirstSeenNext(obs, s);
    IndicesNext(obs, s);
    NoIndicesBeforeFirst(obs, s.host);
  }

  lemma NoGroups()
    ensures Groups(Empty(), [])
  {
  }

  /** The dict of row positions per host, filled in one pass. */
  method GroupByHost(obs: seq<Sample>) returns (byHost: Dict<Host, seq<nat>>)
    ensures byHost.Valid() && byHost.keys == FirstSeen(obs)
    ensures forall h | h in byHost.vals :: byHost.vals[h] == Indices(obs, h)
  {
    hide FirstSeen, Indices, NoDuplicates, Dict.Put, Dict.GetOr;
    byHost := Empty();
    NoGroups();
    for i := 0 to |obs|
      invariant Groups(byHost, obs[..i])
    {
      GroupsNext(byHost, obs[..i], obs[i]);
      assert obs[..i + 1] == obs[..i] + [obs[i]];
      byHost := byHost.Put(obs[i].host, byHost.GetOr(obs[i].host, []) + [i]);
    }
    assert obs[..|obs|] == obs;
  }

  lemma SequencesOfStep(hs: seq<Host>, p: nat, obs: seq<Sample>, len: nat)
    requires p < |hs|
    ensures SequencesOf(hs[..p + 1], obs, len) == SequencesOf(hs[..p], obs, len) + Windows(OwnRows(obs, hs[p]), len)
  {
    assert hs[..p + 1][..p] == hs[..p];
  }

  /** `_to_host_sequences` */
  method ToHostSequences(obs: seq<Sample>, len: nat) returns (sequences: seq<seq<Row>>)
    requires len > 0
    ensures sequences == HostSequences(obs, len)
  {
    hide FirstSeen, NoDuplicates, Windows, SequencesOf, Rows, Indices;
    var byHost := GroupByHost(obs);
    var hosts := byHost.keys;
    sequences := [];
    assert SequencesOf([], obs, len) == [] by { NoSequences(obs, len); }
    for p := 0 to |hosts|
      invariant sequences == SequencesOf(hosts[..p], obs, len)
    {
      SequencesOfStep(hosts, p, obs, len);
      assert hosts[p] in byHost.keys;
      var idx := byHost.vals[hosts[p]];
      if |idx| >= len {
        sequences := sequences + Windows(Rows(obs, idx), len);
      }
    }
    assert hosts[..|hosts|] == hosts;
  }

  lemma NoSequences(obs: seq<Sample>, len: nat)
    ensures SequencesOf([], obs, len) == []
  {
  }
}
