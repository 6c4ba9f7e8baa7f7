/**
 * The asset inventory: counters and capped sets per LAN host in memory, drained from time to time and merged into
 * the stored profiles. Everything is specified by the history of observed flows.
 */
module Assets {
  import opened Sets
  import opened Wrappers

  const SET_CAP := 200

  /** What the remembered sets hold: ports, and addresses of peers. */
  datatype Value = Port(n: int) | Peer(ip: string)

  /** Python's order on strings. */
  predicate Before(a: string, b: string) {
    b != "" && (a == "" || a[0] < b[0] || (a[0] == b[0] && Before(a[1..], b[1..])))
  }

  /** Letter by letter: a proper prefix, or a smaller character at the first difference. */
  ghost predicate Precedes(a: string, b: string) {
    a < b || exists k | 0 <= k < |a| && k < |b| :: a[..k] == b[..k] && a[k] < b[k]
  }

  lemma {:induction false} BeforeIsLexicographic(a: string, b: string)
    ensures Before(a, b) <==> Precedes(a, b)
  {
    if a != "" && b != "" && a[0] == b[0] {
      BeforeIsLexicographic(a[1..], b[1..]);
      assert a == [a[0]] + a[1..] && b == [b[0]] + b[1..];
      if Before(a[1..], b[1..]) && !(a[1..] < b[1..]) {
        var k :| 0 <= k < |a| - 1 && k < |b| - 1 && a[1..][..k] == b[1..][..k] && a[1..][k] < b[1..][k];
        assert a[..k + 1] == [a[0]] + a[1..][..k] && b[..k + 1] == [b[0]] + b[1..][..k];
      }
      forall k | 0 <= k < |a| && k < |b| && a[..k] == b[..k] && a[k] < b[k]
        ensures Before(a[1..], b[1..])
      {
        assert a[1..][..k - 1] == a[1..k] && b[1..][..k - 1] == b[1..k];
        assert a[1..k] == a[..k][1..] && b[1..k] == b[..k][1..];
      }
    }
  }

  predicate Less(a: Value, b: Value) {
    match (a, b)
    case (Port(m), Port(n)) => m < n
    case (Peer(s), Peer(t)) => Before(s, t)
    case (Port(_), Peer(_)) => true
    case (Peer(_), Port(_)) => false
  }

  lemma {:induction false} BeforeIsTotal(a: string, b: string)
    ensures !Before(a, a)
    ensures Before(a, b) || a == b || Before(b, a)
    ensures !(Before(a, b) && Before(b, a))
  {
    if a != "" {
      BeforeIsTotal(a[1..], if b == "" then "" else b[1..]);
      if b != "" {
        assert a == [a[0]] + a[1..] && b == [b[0]] + b[1..];
      }
    }
  }

  lemma {:induction false} BeforeIsTransitive(a: string, b: string, c: string)
    requires Before(a, b) && Before(b, c)
    ensures Before(a, c)
  {
    if a != "" && a[0] == b[0] == c[0] {
      BeforeIsTransitive(a[1..], b[1..], c[1..]);
    }
  }

  lemma LessIsTotal(a: Value, b: Value)
    ensures !Less(a, a)
    ensures Less(a, b) || a == b || Less(b, a)
    ensures !(Less(a, b) && Less(b, a))
  {
    if a.Peer? {
      BeforeIsTotal(a.ip, if b.Peer? then b.ip else a.ip);
    }
  }

  lemma LessIsTransitive(a: Value, b: Value, c: Value)
    requires Less(a, b) && Less(b, c)
    ensures Less(a, c)
  {
    if a.Peer? && b.Peer? && c.Peer? {
      BeforeIsTransitive(a.ip, b.ip, c.ip);
    }
  }

  /* ---- sorted(S)[:n] ---- */

  ghost predicate Ascending(l: seq<Value>) {
    forall i, j | 0 <= i < j < |l| :: Less(l[i], l[j])
  }

  lemma {:induction false} Least(s: set<Value>) returns (m: Value)
    requires s != {}
    ensures IsLeast(s, m)
  {
    hide Less, IsLeast;
    m :| m in s;
    var rest := s - {m};
    if rest == {} {
      assert s == {m};
      LeastOfOne(m);
    } else {
      var k := Least(rest);
      LeastOfMore(s, m, k);
      LessIsTotal(m, k);
      m := if Less(k, m) then k else m;
    }
  }

  lemma LeastOfOne(m: Value)
    ensures IsLeast({m}, m)
  {
  }

  lemma LeastOfMore(s: set<Value>, m: Value, k: Value)
    requires m in s && IsLeast(s - {m}, k)
    ensures k != m
    ensures Less(k, m) ==> IsLeast(s, k)
    ensures Less(m, k) ==> IsLeast(s, m)
  {
    hide Less;
    var rest := s - {m};
    forall x | x in s && x != m
      ensures x in rest && (x == k || Less(k, x)) && (Less(m, k) ==> Less(m, x))
    {
      assert x in rest;
      if x != k && Less(m, k) {
        LessIsTransitive(m, k, x);
      }
    }
  }

  predicate IsLeast(s: set<Value>, m: Value) {
    m in s && forall x | x in s && x != m :: Less(m, x)
  }

  /** `sorted(s)` */
  function Sorted(s: set<Value>): (l: seq<Value>)
    ensures Ascending(l) && SetOf(l) == s
  {
    if s == {} then []
    else
      var k := LeastOf(s);
      assert s == {k} + (s - {k});
      [k] + Sorted(s - {k})
  }

  /** Ports rise, and addresses come in the order of their letters. */
  lemma SortedOrder(s: set<Value>)
    ensures var l := Sorted(s);
            && SetOf(l) == s
            && (forall i, j | 0 <= i < j < |l| && l[i].Port? && l[j].Port? :: l[i].n < l[j].n)
            && (forall i, j | 0 <= i < j < |l| && l[i].Peer? && l[j].Peer? :: Precedes(l[i].ip, l[j].ip))
  {
    hide Sorted, Before, Precedes;
    var l := Sorted(s);
    forall i, j | 0 <= i < j < |l| && l[i].Peer? && l[j].Peer? ensures Precedes(l[i].ip, l[j].ip) {
      BeforeIsLexicographic(l[i].ip, l[j].ip);
      assert Less(l[i], l[j]);
    }
  }

  function LeastOf(s: set<Value>): (m: Value)
    requires s != {}
    ensures IsLeast(s, m)
  {
    LeastExists(s);
    var m :| IsLeast(s, m);
    m
  }

  lemma LeastExists(s: set<Value>)
    requires s != {}
    ensures exists m :: IsLeast(s, m)
    ensures forall a, b | IsLeast(s, a) && IsLeast(s, b) :: a == b
  {
    var m := Least(s);
    assert IsLeast(s, m);
    forall a, b | IsLeast(s, a) && IsLeast(s, b)
      ensures a == b
    {
      LessIsTotal(a, b);
    }
  }

  ghost function Below(s: set<Value>, x: Value): set<Value> {
    set y | y in s && Less(y, x)
  }

  /** The `n` smallest elements, said by rank. */
  ghost function Smallest(s: set<Value>, n: nat): set<Value> {
    set x | x in s && |Below(s, x)| < n
  }

  function Take(l: seq<Value>, n: nat): seq<Value> {
    if |l| <= n then l else l[..n]
  }

  lemma {:induction false} AscendingSize(l: seq<Value>)
    requires Ascending(l)
    ensures |SetOf(l)| == |l|
  {
    if l != [] {
      hide Less, Ascending;
      var front, x := l[..|l| - 1], l[|l| - 1];
      AscendingFront(l);
      AscendingSize(front);
      assert l == front + [x];
      assert SetOf(l) == SetOf(front) + {x};
    }
  }

  lemma AscendingFront(l: seq<Value>)
    requires l != [] && Ascending(l)
    ensures Ascending(l[..|l| - 1]) && l[|l| - 1] !in l[..|l| - 1]
  {
    hide Less;
    var front, x := l[..|l| - 1], l[|l| - 1];
    if x in front {
      var i :| 0 <= i < |front| && front[i] == x;
      assert Less(l[i], l[|l| - 1]);
      LessIsTotal(x, x);
    }
  }

  lemma BelowPosition(l: seq<Value>, i: nat)
    requires Ascending(l) && i < |l|
    ensures Below(SetOf(l), l[i]) == SetOf(l[..i]) && |Below(SetOf(l), l[i])| == i
  {
    hide Less;
    forall j | 0 <= j < |l|
      ensures Less(l[j], l[i]) <==> j < i
    {
      LessIsTotal(l[i], l[j]);
      LessIsTotal(l[j], l[j]);
    }
    assert SetOf(l[..i]) <= Below(SetOf(l), l[i]);
    AscendingSize(l[..i]);
  }

  /** The first elements of the sorted list are the smallest ones. */
  lemma TakeIsSmallest(l: seq<Value>, n: nat)
    requires Ascending(l)
    ensures Ascending(Take(l, n)) && SetOf(Take(l, n)) == Smallest(SetOf(l), n)
  {
    hide Below, Less;
    forall i | 0 <= i < |l|
      ensures |Below(SetOf(l), l[i])| == i
    {
      BelowPosition(l, i);
    }
    forall x
      ensures x in SetOf(Take(l, n)) <==> x in Smallest(SetOf(l), n)
    {
      if x in l {
        var i :| 0 <= i < |l| && l[i] == x;
        if i < n {
          assert Take(l, n)[i] == x;
        }
      }
    }
  }

  lemma SmallestSize(s: set<Value>, n: nat)
    ensures |Smallest(s, n)| == if |s| <= n then |s| else n
  {
    hide Sorted, Smallest, Less;
    TakeIsSmallest(Sorted(s), n);
    AscendingSize(Sorted(s));
    AscendingSize(Take(Sorted(s), n));
  }

  lemma BelowMonotone(s: set<Value>, x: Value, y: Value)
    requires Less(x, y)
    ensures Below(s, x) <= Below(s, y) && (x in s ==> x in Below(s, y) && x !in Below(s, x))
  {
    hide Less;
    forall z | z in Below(s, x)
      ensures z in Below(s, y)
    {
      LessIsTransitive(z, x, y);
    }
    LessIsTotal(x, x);
  }

  /** If `y` is out of the `n` smallest of `a`, they all lie below `y`. */
  lemma SmallestLieBelow(a: set<Value>, n: nat, y: Value)
    requires y in a && y !in Smallest(a, n)
    ensures Smallest(a, n) <= Below(a, y) && |Smallest(a, n)| == n
  {
    hide Less;
    forall x | x in Smallest(a, n)
      ensures x in Below(a, y)
    {
      LessIsTotal(x, y);
      if Less(y, x) {
        BelowMonotone(a, y, x);
        SubsetSize(Below(a, y), Below(a, x));
      }
    }
    SmallestSize(a, n);
    SubsetSize(Below(a, y), a);
  }

  lemma RankAfterCap(a: set<Value>, b: set<Value>, n: nat, x: Value)
    requires x in Smallest(a, n) + b && |Below(Smallest(a, n) + b, x)| < n
    ensures |Below(a + b, x)| < n
  {
    hide Less, Smallest;
    var s := Smallest(a, n);
    if y :| y in a && y !in s && Less(y, x) {
      SmallestLieBelow(a, n, y);
      forall z | z in s
        ensures z in Below(s + b, x)
      {
        LessIsTransitive(z, y, x);
      }
      SubsetSize(s, Below(s + b, x));
    } else {
      assert Below(a + b, x) <= Below(s + b, x);
      SubsetSize(Below(a + b, x), Below(s + b, x));
    }
  }

  /** Capping early loses nothing: what was cut off can never be among the smallest again. */
  lemma CapAbsorbs(a: set<Value>, b: set<Value>, n: nat)
    ensures Smallest(Smallest(a, n) + b, n) == Smallest(a + b, n)
  {
    hide Less, Below;
    var s := Smallest(a, n);
    forall x
      ensures x in Smallest(s + b, n) <==> x in Smallest(a + b, n)
    {
      SmallestIsSubset(a, n);
      if x in Smallest(s + b, n) {
        RankAfterCap(a, b, n, x);
      }
      if x in Smallest(a + b, n) {
        BelowOfUnion(a, b, s, x);
        SubsetSize(Below(a, x), Below(a + b, x));
        SubsetSize(Below(s + b, x), Below(a + b, x));
      }
    }
  }

  lemma SmallestIsSubset(a: set<Value>, n: nat)
    ensures Smallest(a, n) <= a
  {
  }

  lemma BelowOfUnion(a: set<Value>, b: set<Value>, s: set<Value>, x: Value)
    requires s <= a
    ensures Below(a, x) <= Below(a + b, x) && Below(s + b, x) <= Below(a + b, x)
  {
  }

  lemma {:induction false} AscendingUnique(l: seq<Value>, m: seq<Value>)
    requires Ascending(l) && Ascending(m) && SetOf(l) == SetOf(m)
    ensures l == m
  {
    hide Less, Ascending, SetOf, Below;
    AscendingSize(l);
    AscendingSize(m);
    forall i | 0 <= i < |l|
      ensures l[i] == m[i]
    {
      SamePosition(l, m, i);
    }
  }

  lemma SamePosition(l: seq<Value>, m: seq<Value>, i: nat)
    requires Ascending(l) && Ascending(m) && SetOf(l) == SetOf(m) && i < |l| == |m|
    ensures l[i] == m[i]
  {
    hide Less, Below;
    assert l[i] in SetOf(m);
    var j :| 0 <= j < |m| && m[j] == l[i];
    BelowPosition(l, i);
    BelowPosition(m, j);
  }

  /** The list a profile column holds for the set of everything merged into it. */
  function CapList(s: set<Value>): seq<Value> {
    Take(Sorted(s), 200)
  }

  /** `_merge_cap` */
  function MergeCap(existing: seq<Value>, new_: set<Value>): seq<Value> {
    Take(Sorted(SetOf(existing) + new_), SET_CAP)
  }

  /** Merging into a capped list gives the capped list of the union. */
  lemma MergeCapIsCapOfUnion(a: set<Value>, b: set<Value>)
    ensures MergeCap(CapList(a), b) == CapList(a + b)
  {
    hide Less, Ascending, SetOf, Smallest, Take;
    TakeIsSmallest(Sorted(a), SET_CAP);
    TakeIsSmallest(Sorted(a + b), SET_CAP);
    TakeIsSmallest(Sorted(SetOf(CapList(a)) + b), SET_CAP);
    CapAbsorbs(a, b, SET_CAP);
    AscendingUnique(MergeCap(CapList(a), b), CapList(a + b));
  }

  lemma NothingCapped()
    ensures CapList({}) == []
  {
  }

  /* ---- sets that stop growing ---- */

  /** `if len(s) < cap: s.add(x)` for each element in turn. */
  function Kept<T>(xs: seq<T>, cap: nat): set<T> {
    if xs == [] then {}
    else
      var s := Kept(xs[..|xs| - 1], cap);
      if |s| < cap then s + {xs[|xs| - 1]} else s
  }

  lemma KeptNext<T>(xs: seq<T>, x: T, cap: nat)
    ensures Kept(xs + [x], cap) == if |Kept(xs, cap)| < cap then Kept(xs, cap) + {x} else Kept(xs, cap)
  {
    assert (xs + [x])[..|xs|] == xs;
  }

  lemma {:induction false} KeptFacts<T(!new)>(xs: seq<T>, cap: nat)
    ensures Kept(xs, cap) <= SetOf(xs) && |Kept(xs, cap)| <= cap
    ensures |Kept(xs, cap)| < cap ==> Kept(xs, cap) == SetOf(xs)
  {
    if xs != [] {
      KeptFacts(xs[..|xs| - 1], cap);
      assert SetOf(xs) == SetOf(xs[..|xs| - 1]) + {xs[|xs| - 1]} by {
        assert xs == xs[..|xs| - 1] + [xs[|xs| - 1]];
      }
    }
  }

  /** Nothing is missed exactly when there are no more distinct elements than the cap. */
  lemma KeptAllIff<T(!new)>(xs: seq<T>, cap: nat)
    ensures Kept(xs, cap) == SetOf(xs) <==> |SetOf(xs)| <= cap
  {
    KeptFacts(xs, cap);
    if |SetOf(xs)| <= cap && |Kept(xs, cap)| == cap {
      FullSubset(Kept(xs, cap), SetOf(xs));
    }
  }

  /** A value that comes when the set is full is forgotten, however small it is. */
  lemma FullSetForgets(xs: seq<Value>, x: Value)
    requires |SetOf(xs)| >= SET_CAP && x !in xs
    ensures x !in Kept(xs + [x], SET_CAP)
  {
    KeptNext(xs, x, SET_CAP);
    KeptFacts(xs, SET_CAP);
    SubsetSize(Kept(xs, SET_CAP), SetOf(xs));
  }

  /* ---- flows and what they say about a host ---- */

  datatype Flow = Flow(src: string, dst: string, port: Option<int>)

  datatype Kind = Listen | Out | Peers

  function HostsOfFlow(f: Flow, lan: string -> bool): seq<string> {
    (if lan(f.src) then [f.src] else []) + if lan(f.dst) then [f.dst] else []
  }

  /** LAN addresses in order of appearance, with repetitions. */
  function Hosts(log: seq<Flow>, lan: string -> bool): seq<string> {
    if log == [] then [] else Hosts(log[..|log| - 1], lan) + HostsOfFlow(log[|log| - 1], lan)
  }

  /** A missing port and port 0 are not recorded. */
  function PortOf(f: Flow): seq<Value> {
    if f.port.Some? && f.port.value != 0 then [Port(f.port.value)] else []
  }

  /** What a flow's port adds to the history: nothing when it is missing or 0. */
  function Recorded(port: Option<int>): seq<Value> {
    match port
    case None => []
    case Some(n) => if n == 0 then [] else [Port(n)]
  }

  function OutValues(f: Flow, kind: Kind): seq<Value> {
    match kind
    case Listen => []
    case Out => Recorded(f.port)
    case Peers => [Peer(f.dst)]
  }

  function InValues(f: Flow, kind: Kind): seq<Value> {
    match kind
    case Listen => Recorded(f.port)
    case Out => []
    case Peers => [Peer(f.src)]
  }

  function ValuesOfFlow(f: Flow, ip: string, kind: Kind): seq<Value> {
    (if f.src == ip then OutValues(f, kind) else []) + if f.dst == ip then InValues(f, kind) else []
  }

  function Values(log: seq<Flow>, ip: string, kind: Kind): seq<Value> {
    if log == [] then [] else Values(log[..|log| - 1], ip, kind) + ValuesOfFlow(log[|log| - 1], ip, kind)
  }

  function Initiated(log: seq<Flow>, ip: string): nat {
    if log == [] then 0 else Initiated(log[..|log| - 1], ip) + if log[|log| - 1].src == ip then 1 else 0
  }

  function Received(log: seq<Flow>, ip: string): nat {
    if log == [] then 0 else Received(log[..|log| - 1], ip) + if log[|log| - 1].dst == ip then 1 else 0
  }

  datatype Stats = Stats(flowsOut: nat, flowsIn: nat, listenPorts: set<Value>, outPorts: set<Value>, peers: set<Value>)

  function KeptValues(log: seq<Flow>, ip: string, kind: Kind): set<Value> {
    Kept(Values(log, ip, kind), 200)
  }

  /** The statistics of one host, from the history. */
  function StatsOf(log: seq<Flow>, ip: string): Stats {
    Stats(Initiated(log, ip), Received(log, ip), KeptValues(log, ip, Listen), KeptValues(log, ip, Out),
          KeptValues(log, ip, Peers))
  }

  function Tracked(log: seq<Flow>, lan: string -> bool, maxHosts: nat): set<string> {
    Kept(Hosts(log, lan), maxHosts)
  }

  /** What the tracker holds after `log`. */
  function Table(log: seq<Flow>, lan: string -> bool, maxHosts: nat): map<string, Stats> {
    map ip | ip in Tracked(log, lan, maxHosts) :: StatsOf(log, ip)
  }

  const FRESH := Stats(0, 0, {}, {}, {})

  function Remember(s: set<Value>, v: Value): set<Value> {
    if |s| < SET_CAP then s + {v} else s
  }

  function RememberPort(s: set<Value>, f: Flow): set<Value> {
    if PortOf(f) == [] then s else Remember(s, PortOf(f)[0])
  }

  function Outgoing(s: Stats, f: Flow): Stats {
    s.(flowsOut := s.flowsOut + 1, outPorts := RememberPort(s.outPorts, f), peers := Remember(s.peers, Peer(f.dst)))
  }

  function Incoming(s: Stats, f: Flow): Stats {
    s.(flowsIn := s.flowsIn + 1, listenPorts := RememberPort(s.listenPorts, f), peers := Remember(s.peers, Peer(f.src)))
  }

  lemma HostsNext(log: seq<Flow>, f: Flow, lan: string -> bool)
    ensures Hosts(log + [f], lan) == Hosts(log, lan) + HostsOfFlow(f, lan)
  {
    assert (log + [f])[..|log|] == log;
  }

  lemma ValuesNext(log: seq<Flow>, f: Flow, ip: string, kind: Kind)
    ensures Values(log + [f], ip, kind) == Values(log, ip, kind) + ValuesOfFlow(f, ip, kind)
  {
    assert (log + [f])[..|log|] == log;
  }

  lemma CountsNext(log: seq<Flow>, f: Flow, ip: string)
    ensures Initiated(log + [f], ip) == Initiated(log, ip) + if f.src == ip then 1 else 0
    ensures Received(log + [f], ip) == Received(log, ip) + if f.dst == ip then 1 else 0
  {
    assert (log + [f])[..|log|] == log;
  }

  function RememberAll(s: set<Value>, more: seq<Value>): set<Value>
    requires |more| <= 1
  {
    if more == [] then s else Remember(s, more[0])
  }

  lemma KeptOne(vs: seq<Value>, more: seq<Value>)
    requires |more| <= 1
    ensures Kept(vs + more, SET_CAP) == RememberAll(Kept(vs, SET_CAP), more)
  {
    if more == [] {
      assert vs + more == vs;
    } else {
      assert more == [more[0]];
      KeptNext(vs, more[0], SET_CAP);
    }
  }

  function OutPart(f: Flow, ip: string, kind: Kind): (vs: seq<Value>)
    ensures |vs| <= 1
  {
    if f.src == ip then OutValues(f, kind) else []
  }

  function InPart(f: Flow, ip: string, kind: Kind): (vs: seq<Value>)
    ensures |vs| <= 1
  {
    if f.dst == ip then InValues(f, kind) else []
  }

  lemma ValuesOfFlowParts(f: Flow, ip: string, kind: Kind)
    ensures ValuesOfFlow(f, ip, kind) == OutPart(f, ip, kind) + InPart(f, ip, kind)
  {
  }

  /** One flow adds at most one value on each side. */
  lemma KeptValuesNext(log: seq<Flow>, f: Flow, ip: string, kind: Kind)
    ensures KeptValues(log + [f], ip, kind)
         == RememberAll(RememberAll(KeptValues(log, ip, kind), OutPart(f, ip, kind)), InPart(f, ip, kind))
  {
    hide Values, Kept, ValuesOfFlow, OutPart, InPart, RememberAll;
    var vs, o, i := Values(log, ip, kind), OutPart(f, ip, kind), InPart(f, ip, kind);
    ValuesNext(log, f, ip, kind);
    ValuesOfFlowParts(f, ip, kind);
    KeptOne(vs, o);
    KeptOne(vs + o, i);
    assert vs + (o + i) == vs + o + i;
  }

  lemma PortIsRecorded(f: Flow)
    ensures PortOf(f) == Recorded(f.port)
  {
  }

  lemma StatsNext(log: seq<Flow>, f: Flow, ip: string)
    ensures StatsOf(log + [f], ip)
         == var s := StatsOf(log, ip);
            var t := if f.src == ip then Outgoing(s, f) else s;
            if f.dst == ip then Incoming(t, f) else t
  {
    hide KeptValues, Values, Initiated, Received, Hosts, PortOf, Recorded, Remember;
    PortIsRecorded(f);
    CountsNext(log, f, ip);
    KeptValuesNext(log, f, ip, Listen);
    KeptValuesNext(log, f, ip, Out);
    KeptValuesNext(log, f, ip, Peers);
  }

  lemma {:induction false} UnknownIsFresh(log: seq<Flow>, lan: string -> bool, ip: string)
    requires lan(ip) && ip !in Hosts(log, lan)
    ensures Initiated(log, ip) == 0 && Received(log, ip) == 0
    ensures forall kind: Kind :: Values(log, ip, kind) == []
    ensures StatsOf(log, ip) == FRESH
  {
    if log != [] {
      UnknownIsFresh(log[..|log| - 1], lan, ip);
    }
  }

  /* ---- the tracker ---- */

  /** `_get`: the host's statistics, fresh ones for a new host, none when the table is full. */
  function Slot(hosts: map<string, Stats>, ip: string, maxHosts: nat): Option<Stats> {
    if ip in hosts then Some(hosts[ip]) else if |hosts| < maxHosts then Some(FRESH) else None
  }

  function TouchSource(hosts: map<string, Stats>, f: Flow, lan: string -> bool, maxHosts: nat): map<string, Stats> {
    var slot := Slot(hosts, f.src, maxHosts);
    if lan(f.src) && slot.Some? then hosts[f.src := Outgoing(slot.value, f)] else hosts
  }

  function TouchTarget(hosts: map<string, Stats>, f: Flow, lan: string -> bool, maxHosts: nat): map<string, Stats> {
    var slot := Slot(hosts, f.dst, maxHosts);
    if lan(f.dst) && slot.Some? then hosts[f.dst := Incoming(slot.value, f)] else hosts
  }

  function SourcePart(f: Flow, lan: string -> bool): seq<string> {
    if lan(f.src) then [f.src] else []
  }

  /** Half way through a flow: the source side is done. */
  function HalfTable(log: seq<Flow>, f: Flow, lan: string -> bool, maxHosts: nat): map<string, Stats> {
    map ip | ip in Kept(Hosts(log, lan) + SourcePart(f, lan), maxHosts) ::
      if ip == f.src then Outgoing(StatsOf(log, ip), f) else StatsOf(log, ip)
  }

  lemma SourceAgrees(log: seq<Flow>, f: Flow, lan: string -> bool, maxHosts: nat)
    ensures TouchSource(Table(log, lan, maxHosts), f, lan, maxHosts) == HalfTable(log, f, lan, maxHosts)
  {
    hide StatsOf, Hosts, Kept, Outgoing;
    var hosts, seen := Table(log, lan, maxHosts), Hosts(log, lan);
    KeptFacts(seen, maxHosts);
    assert hosts.Keys == Kept(seen, maxHosts);
    if lan(f.src) {
      KeptNext(seen, f.src, maxHosts);
      if f.src !in hosts && |hosts| < maxHosts {
        UnknownIsFresh(log, lan, f.src);
      }
      SourceTouched(hosts, seen, log, f, maxHosts);
    } else {
      assert seen + SourcePart(f, lan) == seen;
      NoSourceTracked(log, lan, maxHosts, f.src);
    }
  }

  /** The new table, key by key: the source's entry is the one that changes. */
  lemma SourceTouched(hosts: map<string, Stats>, seen: seq<string>, log: seq<Flow>, f: Flow, maxHosts: nat)
    requires hosts == map ip | ip in Kept(seen, maxHosts) :: StatsOf(log, ip)
    requires |hosts| == |Kept(seen, maxHosts)| && |Kept(seen, maxHosts)| <= maxHosts
    requires f.src !in hosts && |hosts| < maxHosts ==> StatsOf(log, f.src) == FRESH
    requires Kept(seen + [f.src], maxHosts)
          == if |Kept(seen, maxHosts)| < maxHosts then Kept(seen, maxHosts) + {f.src} else Kept(seen, maxHosts)
    ensures (var slot := Slot(hosts, f.src, maxHosts);
             if slot.Some? then hosts[f.src := Outgoing(slot.value, f)] else hosts)
         == map ip | ip in Kept(seen + [f.src], maxHosts) ::
              if ip == f.src then Outgoing(StatsOf(log, ip), f) else StatsOf(log, ip)
  {
    hide StatsOf, Kept, Outgoing;
    assert f.src in hosts ==> Kept(seen, maxHosts) + {f.src} == Kept(seen, maxHosts);
  }

  lemma {:induction false} HostsAreLan(log: seq<Flow>, lan: string -> bool, ip: string)
    requires ip in Hosts(log, lan)
    ensures lan(ip)
  {
    if log != [] {
      if ip in Hosts(log[..|log| - 1], lan) {
        HostsAreLan(log[..|log| - 1], lan, ip);
      }
    }
  }

  lemma NoSourceTracked(log: seq<Flow>, lan: string -> bool, maxHosts: nat, ip: string)
    requires !lan(ip)
    ensures ip !in Tracked(log, lan, maxHosts)
  {
    KeptFacts(Hosts(log, lan), maxHosts);
    if ip in Hosts(log, lan) {
      HostsAreLan(log, lan, ip);
    }
  }

  /** The addresses the tracker has met half way through a flow. */
  function HalfSeen(log: seq<Flow>, f: Flow, lan: string -> bool): seq<string> {
    Hosts(log, lan) + SourcePart(f, lan)
  }

  lemma TargetKeys(log: seq<Flow>, f: Flow, lan: string -> bool, maxHosts: nat)
    ensures var half := Kept(HalfSeen(log, f, lan), maxHosts);
            Tracked(log + [f], lan, maxHosts) == if lan(f.dst) && |half| < maxHosts then half + {f.dst} else half
  {
    hide Hosts, Kept;
    HostsNext(log, f, lan);
    if lan(f.dst) {
      assert Hosts(log + [f], lan) == HalfSeen(log, f, lan) + [f.dst];
      KeptNext(HalfSeen(log, f, lan), f.dst, maxHosts);
    } else {
      assert Hosts(log + [f], lan) == HalfSeen(log, f, lan);
    }
  }

  lemma NewTargetIsFresh(log: seq<Flow>, f: Flow, lan: string -> bool, maxHosts: nat)
    requires lan(f.dst) && f.dst !in Kept(HalfSeen(log, f, lan), maxHosts)
    requires |Kept(HalfSeen(log, f, lan), maxHosts)| < maxHosts
    ensures StatsOf(log, f.dst) == FRESH && f.src != f.dst
  {
    hide Hosts, Kept, StatsOf;
    KeptFacts(HalfSeen(log, f, lan), maxHosts);
    assert f.dst !in HalfSeen(log, f, lan);
    UnknownIsFresh(log, lan, f.dst);
  }

  lemma TargetTableKeys(log: seq<Flow>, f: Flow, lan: string -> bool, maxHosts: nat)
    ensures TouchTarget(HalfTable(log, f, lan, maxHosts), f, lan, maxHosts).Keys == Tracked(log + [f], lan, maxHosts)
  {
    hide StatsOf, Hosts, Kept, Outgoing, Incoming, HalfSeen, Tracked, HalfTable;
    HalfKeys(log, f, lan, maxHosts);
    TargetKeys(log, f, lan, maxHosts);
  }

  lemma TargetValue(log: seq<Flow>, f: Flow, lan: string -> bool, maxHosts: nat, ip: string)
    requires ip in Tracked(log + [f], lan, maxHosts)
    ensures ip in TouchTarget(HalfTable(log, f, lan, maxHosts), f, lan, maxHosts)
    ensures TouchTarget(HalfTable(log, f, lan, maxHosts), f, lan, maxHosts)[ip] == StatsOf(log + [f], ip)
  {
    hide StatsOf, Hosts, Kept, Outgoing, Incoming, HalfSeen, Tracked;
    TargetTableKeys(log, f, lan, maxHosts);
    HalfKeys(log, f, lan, maxHosts);
    StatsNext(log, f, ip);
    if !lan(f.dst) {
      NoSourceTracked(log + [f], lan, maxHosts, f.dst);
    } else if f.dst !in HalfTable(log, f, lan, maxHosts) && |HalfTable(log, f, lan, maxHosts)| < maxHosts {
      NewTargetIsFresh(log, f, lan, maxHosts);
    }
  }

  lemma TargetAgrees(log: seq<Flow>, f: Flow, lan: string -> bool, maxHosts: nat)
    ensures TouchTarget(HalfTable(log, f, lan, maxHosts), f, lan, maxHosts) == Table(log + [f], lan, maxHosts)
  {
    hide StatsOf, Tracked, TouchTarget, HalfTable;
    TargetTableKeys(log, f, lan, maxHosts);
    forall ip | ip in Tracked(log + [f], lan, maxHosts)
      ensures TouchTarget(HalfTable(log, f, lan, maxHosts), f, lan, maxHosts)[ip] == StatsOf(log + [f], ip)
    {
      TargetValue(log, f, lan, maxHosts, ip);
    }
  }

  lemma HalfKeys(log: seq<Flow>, f: Flow, lan: string -> bool, maxHosts: nat)
    ensures HalfTable(log, f, lan, maxHosts).Keys == Kept(HalfSeen(log, f, lan), maxHosts)
    ensures |HalfTable(log, f, lan, maxHosts)| == |Kept(HalfSeen(log, f, lan), maxHosts)|
  {
    hide Kept, StatsOf;
    assert HalfTable(log, f, lan, maxHosts).Keys == Kept(HalfSeen(log, f, lan), maxHosts);
  }

  /** For every history: the table holds the first LAN hosts up to the cap, and all of them if they fit. */
  lemma TableBounded(log: seq<Flow>, lan: string -> bool, maxHosts: nat)
    ensures |Table(log, lan, maxHosts)| <= maxHosts
    ensures forall ip | ip in Table(log, lan, maxHosts) :: lan(ip) && ip in Hosts(log, lan)
    ensures Table(log, lan, maxHosts).Keys == SetOf(Hosts(log, lan)) <==> |SetOf(Hosts(log, lan))| <= maxHosts
  {
    hide Kept, Hosts, StatsOf;
    assert Table(log, lan, maxHosts).Keys == Kept(Hosts(log, lan), maxHosts);
    KeptFacts(Hosts(log, lan), maxHosts);
    KeptAllIff(Hosts(log, lan), maxHosts);
    forall ip | ip in Table(log, lan, maxHosts)
      ensures lan(ip) && ip in Hosts(log, lan)
    {
      HostsAreLan(log, lan, ip);
    }
  }

  class AssetTracker {
    const maxHosts: nat
    const lan: string -> bool
    var hosts: map<string, Stats>
    /** Flows observed since the last drain. */
    ghost var log: seq<Flow>

    /** The table is the one the history gives. */
    ghost predicate Valid()
      reads this
    {
      hosts == Table(log, lan, maxHosts)
    }

    constructor (maxHosts: nat, lan: string -> bool)
      ensures Valid() && log == [] && this.maxHosts == maxHosts && this.lan == lan
    {
      this.maxHosts, this.lan, hosts, log := maxHosts, lan, map[], [];
    }

    /** None exactly for a new host that finds the table full; a new entry is fresh, and the cap is never passed. */
    method Get(ip: string) returns (s: Option<Stats>)
      modifies this`hosts
      ensures s.None? <==> ip !in old(hosts) && |old(hosts)| >= maxHosts
      ensures s.Some? ==>
                hosts == old(hosts)[ip := s.value] && s.value == if ip in old(hosts) then old(hosts)[ip] else FRESH
      ensures s.None? ==> hosts == old(hosts)
      ensures |old(hosts)| <= maxHosts ==> |hosts| <= maxHosts
    {
      if ip in hosts {
        assert hosts[ip := hosts[ip]] == hosts;
        return Some(hosts[ip]);
      }
      if |hosts| >= maxHosts {
        return None;
      }
      assert hosts[ip := FRESH].Keys == hosts.Keys + {ip};
      hosts := hosts[ip := FRESH];
      return Some(FRESH);
    }

    method ObserveSource(f: Flow)
      modifies this`hosts
      ensures hosts == TouchSource(old(hosts), f, lan, maxHosts)
    {
      if lan(f.src) {
        var s := Get(f.src);
        if s.Some? {
          hosts := hosts[f.src := Outgoing(s.value, f)];
        }
      }
    }

    method ObserveTarget(f: Flow)
      modifies this`hosts
      ensures hosts == TouchTarget(old(hosts), f, lan, maxHosts)
    {
      if lan(f.dst) {
        var s := Get(f.dst);
        if s.Some? {
          hosts := hosts[f.dst := Incoming(s.value, f)];
        }
      }
    }

    method Observe(f: Flow)
      requires Valid()
      modifies this
      ensures Valid() && log == old(log) + [f]
    {
      hide Table, HalfTable, TouchSource, TouchTarget;
      SourceAgrees(log, f, lan, maxHosts);
      TargetAgrees(log, f, lan, maxHosts);
      ObserveSource(f);
      ObserveTarget(f);
      log := log + [f];
    }

    method Drain() returns (drained: map<string, Stats>, ghost batch: seq<Flow>)
      requires Valid()
      modifies this
      ensures Valid() && log == [] && batch == old(log) && drained == Table(batch, lan, maxHosts)
    {
      drained, hosts := hosts, map[];
      batch := log;
      log := [];
    }
  }

  /* ---- the stored profiles ---- */

  datatype Profile = Profile(flowsOut: nat, flowsIn: nat, listenPorts: seq<Value>, outPorts: seq<Value>,
                             peers: seq<Value>)

  const NEW_PROFILE := Profile(0, 0, [], [], [])

  function Merged(p: Profile, s: Stats): Profile {
    Profile(p.flowsOut + s.flowsOut, p.flowsIn + s.flowsIn, MergeCap(p.listenPorts, s.listenPorts),
            MergeCap(p.outPorts, s.outPorts), MergeCap(p.peers, s.peers))
  }

  datatype Setting = Setting(lan: string -> bool, maxHosts: nat)

  ghost predicate IsTracked(c: Setting, batch: seq<Flow>, ip: string) {
    ip in Tracked(batch, c.lan, c.maxHosts)
  }

  /** Flows counted for a host over the flushed batches. */
  ghost function SumOut(c: Setting, batches: seq<seq<Flow>>, ip: string): nat {
    if batches == [] then 0
    else
      var b := batches[|batches| - 1];
      SumOut(c, batches[..|batches| - 1], ip) + if IsTracked(c, b, ip) then Initiated(b, ip) else 0
  }

  ghost function SumIn(c: Setting, batches: seq<seq<Flow>>, ip: string): nat {
    if batches == [] then 0
    else
      var b := batches[|batches| - 1];
      SumIn(c, batches[..|batches| - 1], ip) + if IsTracked(c, b, ip) then Received(b, ip) else 0
  }

  /** Everything the flushed batches remembered for a host. */
  ghost function EverKept(c: Setting, batches: seq<seq<Flow>>, ip: string, kind: Kind): set<Value> {
    if batches == [] then {}
    else
      var b := batches[|batches| - 1];
      EverKept(c, batches[..|batches| - 1], ip, kind) + if IsTracked(c, b, ip) then KeptValues(b, ip, kind) else {}
  }

  ghost predicate Known(c: Setting, batches: seq<seq<Flow>>, ip: string) {
    exists i | 0 <= i < |batches| :: IsTracked(c, batches[i], ip)
  }

  ghost function ProfileOf(c: Setting, batches: seq<seq<Flow>>, ip: string): Profile {
    Profile(SumOut(c, batches, ip), SumIn(c, batches, ip), CapList(EverKept(c, batches, ip, Listen)),
            CapList(EverKept(c, batches, ip, Out)), CapList(EverKept(c, batches, ip, Peers)))
  }

  /** The table of profiles after these batches have been flushed. */
  ghost predicate Stores(c: Setting, batches: seq<seq<Flow>>, rows: map<string, Profile>) {
    forall ip: string ::
      (ip in rows <==> Known(c, batches, ip)) && (ip in rows ==> rows[ip] == ProfileOf(c, batches, ip))
  }

  lemma {:induction false} UnknownProfile(c: Setting, batches: seq<seq<Flow>>, ip: string)
    requires !Known(c, batches, ip)
    ensures ProfileOf(c, batches, ip) == NEW_PROFILE
  {
    hide IsTracked, CapList;
    NothingCapped();
    if batches != [] {
      var before := batches[..|batches| - 1];
      assert forall i | 0 <= i < |before| :: before[i] == batches[i];
      UnknownProfile(c, before, ip);
      UnknownSums(c, batches, ip);
    }
  }

  lemma {:induction false} UnknownSums(c: Setting, batches: seq<seq<Flow>>, ip: string)
    requires forall i | 0 <= i < |batches| :: !IsTracked(c, batches[i], ip)
    ensures SumOut(c, batches, ip) == 0 && SumIn(c, batches, ip) == 0
    ensures forall kind: Kind :: EverKept(c, batches, ip, kind) == {}
  {
    hide IsTracked;
    if batches != [] {
      UnknownSums(c, batches[..|batches| - 1], ip);
    }
  }

  lemma NextProfile(c: Setting, batches: seq<seq<Flow>>, b: seq<Flow>, ip: string)
    ensures ProfileOf(c, batches + [b], ip)
         == if IsTracked(c, b, ip) then Merged(ProfileOf(c, batches, ip), StatsOf(b, ip)) else ProfileOf(c, batches, ip)
    ensures Known(c, batches + [b], ip) <==> Known(c, batches, ip) || IsTracked(c, b, ip)
  {
    hide IsTracked, CapList, MergeCap, KeptValues;
    var all := batches + [b];
    assert all[..|batches|] == batches && all[|batches|] == b;
    forall kind: Kind
      ensures MergeCap(CapList(EverKept(c, batches, ip, kind)), KeptValues(b, ip, kind))
           == CapList(EverKept(c, batches, ip, kind) + KeptValues(b, ip, kind))
      ensures EverKept(c, batches, ip, kind) + {} == EverKept(c, batches, ip, kind)
    {
      MergeCapIsCapOfUnion(EverKept(c, batches, ip, kind), KeptValues(b, ip, kind));
    }
    if Known(c, batches, ip) {
      var i :| 0 <= i < |batches| && IsTracked(c, batches[i], ip);
      assert all[i] == batches[i];
    }
  }

  lemma FlushedRow(c: Setting, batches: seq<seq<Flow>>, b: seq<Flow>, old_: map<string, Profile>,
                   rows: map<string, Profile>,
                   ip: string)
    requires Stores(c, batches, old_)
    requires ip in rows <==> ip in old_ || ip in Table(b, c.lan, c.maxHosts)
    requires ip in rows ==> rows[ip] == if ip in Table(b, c.lan, c.maxHosts)
                                        then Merged(RowOrNew(old_, ip), Table(b, c.lan, c.maxHosts)[ip]) else old_[ip]
    ensures ip in rows <==> Known(c, batches + [b], ip)
    ensures ip in rows ==> rows[ip] == ProfileOf(c, batches + [b], ip)
  {
    hide Merged, StatsOf, ProfileOf, Known, Tracked;
    NextProfile(c, batches, b, ip);
    if ip !in old_ {
      UnknownProfile(c, batches, ip);
    }
  }

  function RowOrNew(rows: map<string, Profile>, ip: string): Profile {
    if ip in rows then rows[ip] else NEW_PROFILE
  }

  class ProfileStore {
    ghost const setting: Setting
    var rows: map<string, Profile>
    ghost var batches: seq<seq<Flow>>

    ghost predicate Valid()
      reads this
    {
      Stores(setting, batches, rows)
    }

    constructor (ghost setting: Setting)
      ensures Valid() && this.setting == setting && batches == []
    {
      this.setting, rows, batches := setting, map[], [];
    }

    /** `flush`: merge each drained host into its row. */
    method Flush(drained: map<string, Stats>, ghost batch: seq<Flow>) returns (written: nat)
      requires Valid() && drained == Table(batch, setting.lan, setting.maxHosts)
      modifies this
      ensures Valid() && batches == old(batches) + [batch] && written == |drained|
    {
      hide Table, Stores, Merged;
      assert Stores(setting, batches, rows);
      var todo := drained.Keys;
      while todo != {}
        invariant todo <= drained.Keys && batches == old(batches)
        invariant forall ip: string :: ip in rows <==> ip in old(rows) || ip in drained.Keys - todo
        invariant forall ip: string | ip in rows ::
                    rows[ip] == if ip in drained.Keys - todo then Merged(RowOrNew(old(rows), ip), drained[ip])
                                else old(rows)[ip]
        decreases |todo|
      {
        var ip :| ip in todo;
        rows := rows[ip := Merged(RowOrNew(rows, ip), drained[ip])];
        todo := todo - {ip};
      }
      forall ip: string
        ensures ip in rows <==> Known(setting, batches + [batch], ip)
        ensures ip in rows ==> rows[ip] == ProfileOf(setting, batches + [batch], ip)
      {
        FlushedRow(setting, batches, batch, old(rows), rows, ip);
      }
      batches := batches + [batch];
      StoresByRow(setting, batches, rows);
      written := |drained|;
    }
  }

  lemma StoresByRow(c: Setting, batches: seq<seq<Flow>>, rows: map<string, Profile>)
    requires forall ip: string ::
               (ip in rows <==> Known(c, batches, ip)) && (ip in rows ==> rows[ip] == ProfileOf(c, batches, ip))
    ensures Stores(c, batches, rows)
  {
  }

  /* ---- nothing is lost over a whole run, wherever the drains fall ---- */

  function Joined(batches: seq<seq<Flow>>): seq<Flow> {
    if batches == [] then [] else Joined(batches[..|batches| - 1]) + batches[|batches| - 1]
  }

  lemma {:induction false} CountsJoin(a: seq<Flow>, b: seq<Flow>, ip: string)
    ensures Initiated(a + b, ip) == Initiated(a, ip) + Initiated(b, ip)
    ensures Received(a + b, ip) == Received(a, ip) + Received(b, ip)
  {
    if b == [] {
      assert a + b == a;
    } else {
      CountsJoin(a, b[..|b| - 1], ip);
      assert (a + b)[..|a + b| - 1] == a + b[..|b| - 1];
    }
  }

  lemma NoValues(ip: string, kind: Kind)
    ensures Values([], ip, kind) == []
  {
  }

  lemma {:induction false} ValuesJoin(a: seq<Flow>, b: seq<Flow>, ip: string, kind: Kind)
    ensures Values(a + b, ip, kind) == Values(a, ip, kind) + Values(b, ip, kind)
  {
    hide *;
    if b == [] {
      assert a + b == a;
      NoValues(ip, kind);
    } else {
      var front, x := b[..|b| - 1], b[|b| - 1];
      var u, v, w := Values(a, ip, kind), Values(front, ip, kind), ValuesOfFlow(x, ip, kind);
      ValuesJoin(a, front, ip, kind);
      ValuesNext(a + front, x, ip, kind);
      ValuesNext(front, x, ip, kind);
      assert a + b == a + front + [x] && b == front + [x];
      assert u + v + w == u + (v + w);
    }
  }

  lemma {:induction false} AppearsIffCounted(log: seq<Flow>, lan: string -> bool, ip: string)
    requires lan(ip)
    ensures ip in Hosts(log, lan) <==> Initiated(log, ip) + Received(log, ip) > 0
  {
    if log != [] {
      AppearsIffCounted(log[..|log| - 1], lan, ip);
    }
  }

  /** The batch gave this host a place if it saw it at all. */
  ghost predicate NotRefused(c: Setting, batch: seq<Flow>, ip: string) {
    ip in Hosts(batch, c.lan) ==> IsTracked(c, batch, ip)
  }

  lemma BatchCount(c: Setting, b: seq<Flow>, ip: string)
    requires c.lan(ip)
    ensures NotRefused(c, b, ip) <==> (IsTracked(c, b, ip) || Initiated(b, ip) + Received(b, ip) == 0)
  {
    AppearsIffCounted(b, c.lan, ip);
    KeptFacts(Hosts(b, c.lan), c.maxHosts);
  }

  /** The stored counters are complete exactly when no flushed batch refused the host a place. */
  lemma {:induction false} CountsCompleteIff(c: Setting, batches: seq<seq<Flow>>, ip: string)
    requires c.lan(ip)
    ensures SumOut(c, batches, ip) <= Initiated(Joined(batches), ip)
            && SumIn(c, batches, ip) <= Received(Joined(batches), ip)
    ensures SumOut(c, batches, ip) == Initiated(Joined(batches), ip)
            && SumIn(c, batches, ip) == Received(Joined(batches), ip)
       <==> forall i | 0 <= i < |batches| :: NotRefused(c, batches[i], ip)
  {
    if batches != [] {
      hide Initiated, Received, IsTracked, NotRefused;
      var before, b := batches[..|batches| - 1], batches[|batches| - 1];
      CountsCompleteIff(c, before, ip);
      CountsJoin(Joined(before), b, ip);
      BatchCount(c, b, ip);
      assert batches == before + [b];
      assert forall i | 0 <= i < |before| :: before[i] == batches[i];
    }
  }

  /** A table with room for every host of the batch refuses none. */
  lemma EnoughRoom(c: Setting, batch: seq<Flow>)
    ensures (forall ip: string | c.lan(ip) :: NotRefused(c, batch, ip)) <==> |SetOf(Hosts(batch, c.lan))| <= c.maxHosts
  {
    hide Kept;
    var seen := Hosts(batch, c.lan);
    KeptAllIff(seen, c.maxHosts);
    KeptFacts(seen, c.maxHosts);
    forall ip | ip in seen
      ensures c.lan(ip)
    {
      HostsAreLan(batch, c.lan, ip);
    }
    if forall ip: string | c.lan(ip) :: NotRefused(c, batch, ip) {
      assert forall ip | ip in SetOf(seen) :: NotRefused(c, batch, ip);
    }
  }

  /** What the tracker's table after `log` holds for the host: nothing when it has no entry. */
  function TableOut(c: Setting, log: seq<Flow>, ip: string): nat {
    var t := Table(log, c.lan, c.maxHosts);
    if ip in t then t[ip].flowsOut else 0
  }

  function TableIn(c: Setting, log: seq<Flow>, ip: string): nat {
    var t := Table(log, c.lan, c.maxHosts);
    if ip in t then t[ip].flowsIn else 0
  }

  lemma TableCountsIff(c: Setting, log: seq<Flow>, ip: string)
    requires c.lan(ip)
    ensures TableOut(c, log, ip) <= Initiated(log, ip) && TableIn(c, log, ip) <= Received(log, ip)
    ensures TableOut(c, log, ip) == Initiated(log, ip) && TableIn(c, log, ip) == Received(log, ip)
       <==> NotRefused(c, log, ip)
  {
    hide Initiated, Received, Hosts, Kept;
    BatchCount(c, log, ip);
  }

  /**
   * Conservation: the counters stored by the flushes, those of a drained batch that is not flushed yet and those in
   * memory add up to what was observed exactly when none of the tables refused the host a place.
   */
  lemma CountsConservedIff(c: Setting, batches: seq<seq<Flow>>, drained: seq<Flow>, live: seq<Flow>, ip: string)
    requires c.lan(ip)
    ensures var all := Joined(batches) + drained + live;
            ((SumOut(c, batches, ip) + TableOut(c, drained, ip) + TableOut(c, live, ip) == Initiated(all, ip)
              && SumIn(c, batches, ip) + TableIn(c, drained, ip) + TableIn(c, live, ip) == Received(all, ip))
             <==> ((forall i | 0 <= i < |batches| :: NotRefused(c, batches[i], ip))
                   && NotRefused(c, drained, ip) && NotRefused(c, live, ip)))
  {
    hide Initiated, Received, IsTracked, NotRefused, SumOut, SumIn, TableOut, TableIn;
    CountsCompleteIff(c, batches, ip);
    TableCountsIff(c, drained, ip);
    TableCountsIff(c, live, ip);
    CountsJoin(Joined(batches) + drained, live, ip);
    CountsJoin(Joined(batches), drained, ip);
  }

  /** The batch neither refused the host nor met more distinct values of this kind than a set can hold. */
  ghost predicate Fits(c: Setting, batch: seq<Flow>, ip: string, kind: Kind) {
    NotRefused(c, batch, ip) && |SetOf(Values(batch, ip, kind))| <= SET_CAP
  }

  lemma UntrackedHasNoValues(c: Setting, b: seq<Flow>, ip: string, kind: Kind)
    requires c.lan(ip) && Fits(c, b, ip, kind)
    ensures (if IsTracked(c, b, ip) then KeptValues(b, ip, kind) else {}) == SetOf(Values(b, ip, kind))
  {
    if IsTracked(c, b, ip) {
      KeptAllIff(Values(b, ip, kind), SET_CAP);
    } else {
      UnknownIsFresh(b, c.lan, ip);
    }
  }

  lemma {:induction false} EverKeptIsEverything(c: Setting, batches: seq<seq<Flow>>, ip: string, kind: Kind)
    requires c.lan(ip) && forall i | 0 <= i < |batches| :: Fits(c, batches[i], ip, kind)
    ensures EverKept(c, batches, ip, kind) == SetOf(Values(Joined(batches), ip, kind))
  {
    if batches != [] {
      hide Fits, IsTracked, KeptValues, Values;
      var before, b := batches[..|batches| - 1], batches[|batches| - 1];
      assert forall i | 0 <= i < |before| :: before[i] == batches[i];
      EverKeptIsEverything(c, before, ip, kind);
      ValuesJoin(Joined(before), b, ip, kind);
      UntrackedHasNoValues(c, b, ip, kind);
    } else {
      assert Values([], ip, kind) == [];
    }
  }

  /** After the last flush the stored list holds the smallest values ever observed, wherever the drains fell. */
  lemma StoredListIsSmallestEver(c: Setting, batches: seq<seq<Flow>>, ip: string, kind: Kind)
    requires c.lan(ip) && forall i | 0 <= i < |batches| :: Fits(c, batches[i], ip, kind)
    ensures var l := CapList(EverKept(c, batches, ip, kind));
            Ascending(l) && SetOf(l) == Smallest(SetOf(Values(Joined(batches), ip, kind)), SET_CAP)
  {
    hide Less, Smallest, Fits, Values;
    EverKeptIsEverything(c, batches, ip, kind);
    TakeIsSmallest(Sorted(EverKept(c, batches, ip, kind)), SET_CAP);
  }

  lemma {:induction false} EverKeptIsSeen(c: Setting, batches: seq<seq<Flow>>, ip: string, kind: Kind)
    ensures EverKept(c, batches, ip, kind) <= SetOf(Values(Joined(batches), ip, kind))
  {
    if batches != [] {
      hide IsTracked, Values, Kept;
      var before, b := batches[..|batches| - 1], batches[|batches| - 1];
      EverKeptIsSeen(c, before, ip, kind);
      ValuesJoin(Joined(before), b, ip, kind);
      KeptFacts(Values(b, ip, kind), SET_CAP);
    }
  }

  /**
   * Without that condition: the stored list holds the smallest values ever observed exactly when none of those was
   * forgotten in its batch, by a full set or by a full table.
   */
  lemma StoredListIsSmallestEverIff(c: Setting, batches: seq<seq<Flow>>, ip: string, kind: Kind)
    ensures var l, kept := CapList(EverKept(c, batches, ip, kind)), EverKept(c, batches, ip, kind);
            var smallest := Smallest(SetOf(Values(Joined(batches), ip, kind)), SET_CAP);
            Ascending(l) && (SetOf(l) == smallest <==> smallest <= kept)
  {
    hide Less, Smallest, Values, EverKept;
    var kept, all := EverKept(c, batches, ip, kind), SetOf(Values(Joined(batches), ip, kind));
    EverKeptIsSeen(c, batches, ip, kind);
    TakeIsSmallest(Sorted(kept), SET_CAP);
    SmallestIsSubset(kept, SET_CAP);
    CapAbsorbs(all, kept, SET_CAP);
    assert all + kept == all;
    assert Smallest(all, SET_CAP) <= kept ==> Smallest(all, SET_CAP) + kept == kept;
  }
}
