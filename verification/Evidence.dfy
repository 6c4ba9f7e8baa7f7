/**
 * Evidence per flow key: payload matches and JA3 fingerprints of forward packets wait in two bounded LRU
 * dictionaries until a flow of the key is handed over. Everything is specified by the history of lock sections.
 */
module Evidence {
  import opened PyDict
  import opened Sets
  import opened Wrappers

  const MATCH_CAP := 20

  /** A lock section of one dictionary: a packet adds a value under a key, or the key is handed over. */
  datatype Event<K, V> = Add(key: K, value: V) | Pop(key: K)

  type Trace<K, V> = seq<Event<K, V>>

  /* ---- the order of an LRU dictionary ---- */

  /** `popitem(last=False)` when a new key finds the dictionary full, then insertion or `move_to_end`. */
  function Touch<K(==,!new)>(keys: seq<K>, k: K, cap: nat): seq<K> {
    var kept := if k !in keys && |keys| >= cap && keys != [] then keys[1..] else keys;
    Without(kept, k) + [k]
  }

  function Order<K(==,!new), V>(trace: Trace<K, V>, cap: nat): seq<K> {
    if trace == [] then []
    else
      var before, e := Order(trace[..|trace| - 1], cap), trace[|trace| - 1];
      if e.Add? then Touch(before, e.key, cap) else Without(before, e.key)
  }

  /** The other keys that got evidence since `k` last did and have not been handed over since. */
  ghost function Rivals<K(!new), V>(trace: Trace<K, V>, k: K): set<K> {
    if trace == [] then {}
    else
      var before, e := Rivals(trace[..|trace| - 1], k), trace[|trace| - 1];
      if e.Pop? then before - {e.key}
      else if e.key == k then {}
      else before + {e.key}
  }

  /** Since `k` last got evidence it was not handed over and never had as many rivals as the dictionary has places. */
  ghost predicate Alive<K(!new), V>(trace: Trace<K, V>, k: K, cap: nat) {
    trace != [] && var e := trace[|trace| - 1];
    if e.key == k then e.Add?
    else Alive(trace[..|trace| - 1], k, cap) && (e.Add? ==> |Rivals(trace, k)| < cap)
  }

  /** Each key's successors are its rivals. */
  ghost predicate Ranked<K(!new), V>(keys: seq<K>, trace: Trace<K, V>) {
    forall i | 0 <= i < |keys| :: SetOf(keys[i + 1..]) == Rivals(trace, keys[i])
  }

  ghost predicate OrderOk<K(!new), V>(keys: seq<K>, trace: Trace<K, V>, cap: nat) {
    && NoDuplicates(keys)
    && |keys| <= cap
    && Ranked(keys, trace)
    && forall k :: k in keys <==> Alive(trace, k, cap)
  }

  lemma SetSize<T(!new)>(s: seq<T>)
    requires NoDuplicates(s)
    ensures |SetOf(s)| == |s|
  {
    NoDuplicatesSize(s, SetOf(s));
  }

  lemma RivalsNext<K(!new), V>(trace: Trace<K, V>, e: Event<K, V>, k: K, cap: nat)
    ensures Rivals(trace + [e], k) == if e.Pop? then Rivals(trace, k) - {e.key}
                                      else if e.key == k then {} else Rivals(trace, k) + {e.key}
    ensures Alive(trace + [e], k, cap) == if e.key == k then e.Add?
                                          else Alive(trace, k, cap) && (e.Add? ==> |Rivals(trace, k) + {e.key}| < cap)
  {
    assert (trace + [e])[..|trace|] == trace;
  }

  lemma SuffixNext<T(!new)>(s: seq<T>, x: T, i: nat)
    requires i < |s|
    ensures (s + [x])[i] == s[i] && SetOf((s + [x])[i + 1..]) == SetOf(s[i + 1..]) + {x}
  {
    hide SetOf;
    assert (s + [x])[i + 1..] == s[i + 1..] + [x];
    SetOfEnds(s[i + 1..], x);
  }

  /** Removing one element of a duplicate-free list, seen from an element that stays. */
  lemma {:induction false} WithoutSuffix<T(!new)>(s: seq<T>, x: T, j: nat) returns (i: nat)
    requires NoDuplicates(s) && j < |Without(s, x)|
    ensures i < |s| && s[i] == Without(s, x)[j] && SetOf(Without(s, x)[j + 1..]) == SetOf(s[i + 1..]) - {x}
  {
    hide SetOf;
    var init, last := s[..|s| - 1], s[|s| - 1];
    var u := Without(init, x);
    assert s == init + [last] && NoDuplicates(init);
    if last == x {
      i := WithoutSuffix(init, x, j);
      SuffixNext(init, x, i);
    } else if j == |u| {
      i := |s| - 1;
      assert s[i + 1..] == [] && (u + [last])[j + 1..] == [];
      SetOfEnds([], x);
    } else {
      i := WithoutSuffix(init, x, j);
      SuffixNext(init, last, i);
      SuffixNext(u, last, j);
    }
  }

  lemma PopKeepsRanks<K(!new), V>(keys: seq<K>, trace: Trace<K, V>, k: K)
    requires NoDuplicates(keys) && Ranked(keys, trace)
    ensures Ranked(Without(keys, k), trace + [Pop(k)])
  {
    hide Rivals, Alive, SetOf, Without;
    forall j | 0 <= j < |Without(keys, k)|
      ensures SetOf(Without(keys, k)[j + 1..]) == Rivals(trace + [Pop(k)], Without(keys, k)[j])
    {
      var i := WithoutSuffix(keys, k, j);
      RivalsNext(trace, Pop(k), Without(keys, k)[j], 0);
    }
  }

  lemma PopKeepsOrder<K(!new), V>(keys: seq<K>, trace: Trace<K, V>, k: K, cap: nat)
    requires OrderOk(keys, trace, cap)
    ensures OrderOk(Without(keys, k), trace + [Pop(k)], cap)
  {
    hide Rivals, Alive, Ranked, Without;
    PopKeepsRanks(keys, trace, k);
    WithoutProperties(keys, k);
    forall j: K
      ensures Alive(trace + [Pop(k)], j, cap) <==> j != k && Alive(trace, j, cap)
    {
      RivalsNext(trace, Pop(k), j, cap);
    }
  }

  /** The rest of the order after an eviction of its oldest key. */
  function Survivors<K(==,!new)>(keys: seq<K>, k: K, cap: nat): seq<K> {
    Without(if k !in keys && |keys| >= cap && keys != [] then keys[1..] else keys, k)
  }

  lemma SurvivorSuffix<K(!new)>(keys: seq<K>, k: K, cap: nat, j: nat) returns (i: nat)
    requires NoDuplicates(keys) && j < |Survivors(keys, k, cap)|
    ensures i < |keys| && keys[i] == Survivors(keys, k, cap)[j]
    ensures SetOf(Survivors(keys, k, cap)[j + 1..]) == SetOf(keys[i + 1..]) - {k}
  {
    hide Without, SetOf;
    if k !in keys && |keys| >= cap && keys != [] {
      var rest := keys[1..];
      var m := WithoutSuffix(rest, k, j);
      i := m + 1;
      assert rest[i..] == keys[i + 1..];
    } else {
      i := WithoutSuffix(keys, k, j);
    }
  }

  lemma AddKeepsRanks<K(!new), V>(keys: seq<K>, trace: Trace<K, V>, k: K, v: V, cap: nat)
    requires NoDuplicates(keys) && Ranked(keys, trace)
    ensures Ranked(Touch(keys, k, cap), trace + [Add(k, v)])
  {
    hide Rivals, Alive, SetOf, Survivors;
    var s, t := Survivors(keys, k, cap), Touch(keys, k, cap);
    assert t == s + [k] by { TouchIsSurvivors(keys, k, cap); }
    forall j | 0 <= j < |t|
      ensures SetOf(t[j + 1..]) == Rivals(trace + [Add(k, v)], t[j])
    {
      RivalsNext(trace, Add(k, v), t[j], 0);
      if j == |s| {
        assert t[j + 1..] == [];
        SetOfEnds<K>([], k);
      } else {
        var i := SurvivorSuffix(keys, k, cap, j);
        assert t[j + 1..] == s[j + 1..] + [k];
        SetOfEnds(s[j + 1..], k);
        SurvivorMembers(keys, k, cap);
        assert t[j] in s;
      }
    }
  }

  lemma TouchIsSurvivors<K(!new)>(keys: seq<K>, k: K, cap: nat)
    ensures Touch(keys, k, cap) == Survivors(keys, k, cap) + [k]
  {
  }

  lemma SurvivorMembers<K(!new)>(keys: seq<K>, k: K, cap: nat)
    ensures k !in Survivors(keys, k, cap)
    ensures forall j | j in Survivors(keys, k, cap) :: j in keys
  {
    WithoutProperties(if k !in keys && |keys| >= cap && keys != [] then keys[1..] else keys, k);
  }

  lemma OneMore<T(!new)>(s: seq<T>, k: T)
    requires NoDuplicates(s)
    ensures |SetOf(s) + {k}| == |s| + if k in s then 0 else 1
  {
    SetSize(s);
    assert k in s <==> k in SetOf(s);
    assert k in s ==> SetOf(s) + {k} == SetOf(s);
  }

  /** Only a full dictionary gives up a key, and only its first. */
  lemma SurvivorIsNotFirst<K(!new)>(keys: seq<K>, k: K, cap: nat, i: nat)
    requires NoDuplicates(keys) && i < |keys| && keys[i] != k
    ensures keys[i] in Survivors(keys, k, cap) <==> k in keys || |keys| < cap || i != 0
  {
    WithoutProperties(keys, k);
    WithoutProperties(keys[1..], k);
    assert i != 0 ==> keys[1..][i - 1] == keys[i];
    assert i == 0 ==> forall m | 0 <= m < |keys| - 1 :: keys[1..][m] == keys[m + 1] != keys[0];
  }

  /** A key survives another key's arrival exactly when it still has fewer rivals than there are places. */
  lemma SurvivesIff<K(!new), V>(keys: seq<K>, trace: Trace<K, V>, k: K, cap: nat, i: nat)
    requires 0 < cap && NoDuplicates(keys) && |keys| <= cap && Ranked(keys, trace)
    requires i < |keys| && keys[i] != k
    ensures keys[i] in Survivors(keys, k, cap) <==> |Rivals(trace, keys[i]) + {k}| < cap
  {
    hide Rivals, Survivors, SetOf;
    var after := keys[i + 1..];
    OneMore(after, k);
    SurvivorIsNotFirst(keys, k, cap, i);
    assert forall m | i < m < |keys| :: keys[m] == after[m - i - 1];
    assert k in keys && k !in after ==> k in keys[..i];
  }

  lemma AddKeepsOrder<K(!new), V>(keys: seq<K>, trace: Trace<K, V>, k: K, v: V, cap: nat)
    requires 0 < cap && OrderOk(keys, trace, cap)
    ensures OrderOk(Touch(keys, k, cap), trace + [Add(k, v)], cap)
  {
    hide Rivals, Alive, Ranked, Touch, Survivors, NoDuplicates;
    AddKeepsRanks(keys, trace, k, v, cap);
    TouchIsSurvivors(keys, k, cap);
    SurvivorMembers(keys, k, cap);
    SurvivorsFit(keys, k, cap);
    var t := Touch(keys, k, cap);
    forall j: K
      ensures j in t <==> Alive(trace + [Add(k, v)], j, cap)
    {
      RivalsNext(trace, Add(k, v), j, cap);
      if j != k && j in keys {
        var i :| 0 <= i < |keys| && keys[i] == j;
        SurvivesIff(keys, trace, k, cap, i);
      }
    }
  }

  lemma SurvivorsFit<K(!new)>(keys: seq<K>, k: K, cap: nat)
    requires 0 < cap && NoDuplicates(keys) && |keys| <= cap
    ensures NoDuplicates(Survivors(keys, k, cap) + [k]) && |Survivors(keys, k, cap)| < cap
  {
    var kept := if k !in keys && |keys| >= cap && keys != [] then keys[1..] else keys;
    WithoutProperties(kept, k);
  }

  /** Whole runs: which keys the dictionary holds, and in which order, as functions of the history alone. */
  lemma {:induction false} OrderAgrees<K(!new), V>(trace: Trace<K, V>, cap: nat)
    requires 0 < cap
    ensures OrderOk(Order(trace, cap), trace, cap)
  {
    if trace == [] {
    } else {
      hide OrderOk, Touch, Without;
      var before, e := trace[..|trace| - 1], trace[|trace| - 1];
      OrderAgrees(before, cap);
      assert trace == before + [e];
      if e.Add? {
        AddKeepsOrder(Order(before, cap), before, e.key, e.value, cap);
      } else {
        PopKeepsOrder(Order(before, cap), before, e.key, cap);
      }
    }
  }

  /* ---- what is handed over ---- */

  /** The matches a key's evidence consists of: since its hand-over, and since it last fell out of the dictionary. */
  ghost function Matches<K(!new)>(trace: Trace<K, set<string>>, k: K, cap: nat): set<string> {
    if trace == [] then {}
    else
      var before, e := trace[..|trace| - 1], trace[|trace| - 1];
      if e.key != k then Matches(before, k, cap)
      else if e.Pop? then {}
      else (if Alive(before, k, cap) then Matches(before, k, cap) else {}) + e.value
  }

  /** All matches stored under the key since it was last handed over. */
  ghost function Since<K(!new)>(trace: Trace<K, set<string>>, k: K): set<string> {
    if trace == [] then {}
    else
      var before, e := trace[..|trace| - 1], trace[|trace| - 1];
      if e.key != k then Since(before, k) else if e.Pop? then {} else Since(before, k) + e.value
  }

  /** The keys with evidence since their last hand-over. */
  ghost function Live<K(!new), V>(trace: Trace<K, V>): set<K> {
    if trace == [] then {}
    else
      var before, e := Live(trace[..|trace| - 1]), trace[|trace| - 1];
      if e.Add? then before + {e.key} else before - {e.key}
  }

  ghost predicate BelowCap<K(!new), V>(trace: Trace<K, V>, cap: nat) {
    forall n | 0 <= n <= |trace| :: |Live(trace[..n])| <= cap
  }

  lemma {:induction false} RivalsAreLive<K(!new), V>(trace: Trace<K, V>, k: K)
    ensures Rivals(trace, k) <= Live(trace) - {k}
  {
    if trace != [] {
      RivalsAreLive(trace[..|trace| - 1], k);
    }
  }

  lemma BelowCapPrefix<K(!new), V>(trace: Trace<K, V>, cap: nat)
    requires BelowCap(trace, cap) && trace != []
    ensures BelowCap(trace[..|trace| - 1], cap) && |Live(trace)| <= cap
  {
    hide Live;
    var before := trace[..|trace| - 1];
    assert forall n | 0 <= n <= |before| :: before[..n] == trace[..n];
    assert trace[..|trace|] == trace;
  }

  /** As long as no more keys have evidence than there are places, none falls out. */
  lemma {:induction false} NobodyEvicted<K(!new), V>(trace: Trace<K, V>, k: K, cap: nat)
    requires BelowCap(trace, cap)
    ensures Alive(trace, k, cap) <==> k in Live(trace)
  {
    if trace != [] {
      hide BelowCap, Rivals;
      BelowCapPrefix(trace, cap);
      NobodyEvicted(trace[..|trace| - 1], k, cap);
      RivalsAreLive(trace, k);
      if k in Live(trace) {
        SubsetSize(Rivals(trace, k) + {k}, Live(trace));
      }
    }
  }

  lemma {:induction false} NoMatchesWhenNotLive<K(!new)>(trace: Trace<K, set<string>>, k: K)
    requires k !in Live(trace)
    ensures Since(trace, k) == {}
  {
    if trace != [] && trace[|trace| - 1].key != k {
      NoMatchesWhenNotLive(trace[..|trace| - 1], k);
    }
  }

  /** Below the cap, the evidence of a key is the union of the matches stored under it since it was last handed over. */
  lemma {:induction false} NothingLostBelowCap<K(!new)>(trace: Trace<K, set<string>>, k: K, cap: nat)
    requires BelowCap(trace, cap)
    ensures Matches(trace, k, cap) == Since(trace, k)
  {
    if trace != [] {
      hide BelowCap, Alive, Live;
      var before := trace[..|trace| - 1];
      BelowCapPrefix(trace, cap);
      NothingLostBelowCap(before, k, cap);
      NobodyEvicted(before, k, cap);
      if k !in Live(before) {
        NoMatchesWhenNotLive(before, k);
      }
    }
  }

  /** At any load, only matches that were stored under the key since its last hand-over. */
  lemma {:induction false} NeverAnotherKeys<K(!new)>(trace: Trace<K, set<string>>, k: K, cap: nat)
    ensures Matches(trace, k, cap) <= Since(trace, k)
  {
    if trace != [] {
      hide Alive;
      NeverAnotherKeys(trace[..|trace| - 1], k, cap);
    }
  }

  lemma SinceNext<K(!new)>(trace: Trace<K, set<string>>, e: Event<K, set<string>>, k: K)
    ensures Since(trace + [e], k)
         == if e.key != k then Since(trace, k) else if e.Pop? then {} else Since(trace, k) + e.value
  {
    assert (trace + [e])[..|trace|] == trace;
  }

  /** A hand-over makes room. */
  lemma PopKeepsBelowCap<K(!new), V>(trace: Trace<K, V>, j: K, cap: nat)
    requires BelowCap(trace, cap)
    ensures BelowCap(trace + [Pop(j)], cap)
  {
    var later := trace + [Pop(j)];
    assert trace[..|trace|] == trace && later[..|trace|] == trace && later[..|later|] == later;
    forall n | 0 <= n <= |later|
      ensures |Live(later[..n])| <= cap
    {
      if n == |later| {
        SubsetSize(Live(trace) - {j}, Live(trace));
      } else {
        assert later[..n] == trace[..n];
      }
    }
  }

  /** The last fingerprint since the hand-over, if the dictionary still holds one. */
  ghost function LastValue<K(!new), V>(trace: Trace<K, V>, k: K): Option<V> {
    if trace == [] then None
    else
      var e := trace[|trace| - 1];
      if e.key != k then LastValue(trace[..|trace| - 1], k) else if e.Pop? then None else Some(e.value)
  }

  datatype Fingerprint = Fingerprint(hash: string, text: string, malicious: bool)

  /** Up to the cap a list holds its key's matches, beyond it that many of them. */
  ghost predicate Holds(stored: set<string>, all: set<string>) {
    && stored <= all
    && |stored| == if |all| <= 20 then |all| else 20
  }

  /** What a hand-over of `k` may give: all its evidence up to `MATCH_CAP`, if the dictionary still holds the key. */
  ghost predicate MayHandOver<K(!new)>(trace: Trace<K, set<string>>, k: K, cap: nat, matches: set<string>) {
    if Alive(trace, k, cap) then Holds(matches, Matches(trace, k, cap)) else matches == {}
  }

  lemma HoldsAll(stored: set<string>, all: set<string>)
    requires Holds(stored, all) && |all| <= MATCH_CAP
    ensures stored == all
  {
    assert all == stored + (all - stored);
  }

  lemma HoldsNext(stored: set<string>, all: set<string>, more: set<string>, kept: set<string>)
    requires Holds(stored, all) && kept <= stored + more
    requires |kept| == if |stored + more| <= MATCH_CAP then |stored + more| else MATCH_CAP
    ensures Holds(kept, all + more)
  {
    SubsetSize(stored + more, all + more);
    SubsetSize(stored, stored + more);
    SubsetSize(all, all + more);
    if |all| <= MATCH_CAP {
      HoldsAll(stored, all);
    }
  }

  class EvidenceStore<K(==,!new)> {
    const cap: nat
    var payloadKeys: seq<K>
    var payload: map<K, set<string>>
    var ja3Keys: seq<K>
    var ja3: map<K, Fingerprint>
    ghost var hits: Trace<K, set<string>>
    ghost var prints: Trace<K, Fingerprint>

    /** The matches that wait are those the history gives, up to the cap on their number. */
    ghost predicate PayloadOk()
      reads this
    {
      && payloadKeys == Order(hits, cap)
      && (forall k :: k in payload <==> Alive(hits, k, cap))
      && (forall k | k in payload :: Holds(payload[k], Matches(hits, k, cap)))
    }

    ghost predicate Ja3Ok()
      reads this
    {
      && ja3Keys == Order(prints, cap)
      && (forall k :: k in ja3 <==> Alive(prints, k, cap))
      && (forall k | k in ja3 :: LastValue(prints, k) == Some(ja3[k]))
    }

    constructor (cap: nat)
      requires 0 < cap
      ensures PayloadOk() && Ja3Ok() && hits == [] && prints == [] && this.cap == cap
    {
      this.cap := cap;
      payloadKeys, payload, ja3Keys, ja3, hits, prints := [], map[], [], map[], [], [];
    }

    /** Matches of a packet; only a forward packet of a tracked flow adds them. */
    method AddMatches(flow: Option<K>, forward: bool, matches: set<string>)
      requires PayloadOk() && 0 < cap
      modifies this`payloadKeys, this`payload, this`hits
      ensures PayloadOk()
      ensures hits == if flow.Some? && forward && matches != {}
                      then old(hits) + [Add(flow.value, matches)] else old(hits)
    {
      if flow.None? || !forward || matches == {} {
        return;
      }
      var k := flow.value;
      ghost var was, before := payload, hits;
      if k !in payloadKeys && |payloadKeys| >= cap && payloadKeys != [] {
        payload := payload - {payloadKeys[0]};
      }
      var existing := if k in payload then payload[k] else {};
      var combined := KeepSome(existing + matches);
      payloadKeys := Touch(payloadKeys, k, cap);
      payload := payload[k := combined];
      hits := hits + [Add(k, matches)];
      AddAgrees(before, k, matches, cap, was, payload, combined);
    }

    /** `list(set(...))[-20:]`: which ones stay is not specified. */
    method KeepSome(all: set<string>) returns (kept: set<string>)
      ensures kept <= all && |kept| == if |all| <= MATCH_CAP then |all| else MATCH_CAP
    {
      kept := all;
      while |kept| > MATCH_CAP
        invariant kept <= all && |kept| >= if |all| <= MATCH_CAP then |all| else MATCH_CAP
      {
        var x :| x in kept;
        kept := kept - {x};
      }
      SubsetSize(kept, all);
    }

    /** A fingerprint replaces the key's previous one. */
    method AddFingerprint(flow: Option<K>, forward: bool, print_: Fingerprint)
      requires Ja3Ok() && 0 < cap
      modifies this`ja3Keys, this`ja3, this`prints
      ensures Ja3Ok()
      ensures prints == if flow.Some? && forward then old(prints) + [Add(flow.value, print_)] else old(prints)
    {
      if flow.None? || !forward {
        return;
      }
      var k := flow.value;
      ghost var was, before := ja3, prints;
      if k !in ja3Keys && |ja3Keys| >= cap && ja3Keys != [] {
        ja3 := ja3 - {ja3Keys[0]};
      }
      ja3Keys := Touch(ja3Keys, k, cap);
      ja3 := ja3[k := print_];
      prints := prints + [Add(k, print_)];
      FingerprintAgrees(before, k, print_, cap, was, ja3);
    }

    /** The two lock sections that hand a key's evidence over. */
    method HandOver(k: K) returns (matches: set<string>, print_: Option<Fingerprint>)
      requires PayloadOk() && Ja3Ok() && 0 < cap
      modifies this
      ensures PayloadOk() && Ja3Ok() && hits == old(hits) + [Pop(k)] && prints == old(prints) + [Pop(k)]
      ensures MayHandOver(old(hits), k, cap, matches)
      ensures matches <= Since(old(hits), k)
      ensures BelowCap(old(hits), cap) && |Since(old(hits), k)| <= 20 ==> matches == Since(old(hits), k)
      ensures print_ == if Alive(old(prints), k, cap) then LastValue(old(prints), k) else None
    {
      hide Alive, Matches, Since, BelowCap, Order, LastValue;
      matches := if k in payload then payload[k] else {};
      print_ := if k in ja3 then Some(ja3[k]) else None;
      HandedOver(hits, k, cap, matches);
      PopAgrees(hits, k, cap, payload);
      PopFingerprintAgrees(prints, k, cap, ja3);
      payloadKeys, payload, hits := Without(payloadKeys, k), payload - {k}, hits + [Pop(k)];
      ja3Keys, ja3, prints := Without(ja3Keys, k), ja3 - {k}, prints + [Pop(k)];
    }
  }

  lemma OrderNext<K(!new), V>(trace: Trace<K, V>, e: Event<K, V>, cap: nat)
    ensures Order(trace + [e], cap)
         == if e.Add? then Touch(Order(trace, cap), e.key, cap) else Without(Order(trace, cap), e.key)
  {
    assert (trace + [e])[..|trace|] == trace;
  }

  lemma MatchesNext<K(!new)>(trace: Trace<K, set<string>>, e: Event<K, set<string>>, k: K, cap: nat)
    ensures Matches(trace + [e], k, cap)
         == if e.key != k then Matches(trace, k, cap)
            else if e.Pop? then {}
            else (if Alive(trace, k, cap) then Matches(trace, k, cap) else {}) + e.value
  {
    assert (trace + [e])[..|trace|] == trace;
  }

  lemma LastValueNext<K(!new), V>(trace: Trace<K, V>, e: Event<K, V>, k: K)
    ensures LastValue(trace + [e], k)
            == if e.key != k then LastValue(trace, k) else if e.Pop? then None else Some(e.value)
  {
    assert (trace + [e])[..|trace|] == trace;
  }

  predicate PushesOut<K(==)>(keys: seq<K>, k: K, cap: nat, j: K) {
    k !in keys && |keys| >= cap && keys != [] && j == keys[0]
  }

  /** The only key an addition can push out is the one in front. */
  lemma AliveAfterAdd<K(!new), V>(trace: Trace<K, V>, k: K, v: V, cap: nat, j: K)
    requires 0 < cap
    ensures Alive(trace + [Add(k, v)], j, cap)
       <==> j == k || (Alive(trace, j, cap) && !PushesOut(Order(trace, cap), k, cap, j))
  {
    hide Alive, Rivals, Without;
    var keys := Order(trace, cap);
    OrderAgrees(trace, cap);
    OrderNext(trace, Add(k, v), cap);
    OrderAgrees(trace + [Add(k, v)], cap);
    WithoutProperties(keys, k);
    WithoutProperties(if keys == [] then [] else keys[1..], k);
    if j in keys && keys != [] {
      assert j in keys[1..] || j == keys[0];
      assert keys[0] !in keys[1..];
    }
  }

  lemma AddAgrees<K(!new)>(trace: Trace<K, set<string>>, k: K, ms: set<string>, cap: nat, was: map<K, set<string>>,
                           later: map<K, set<string>>, combined: set<string>)
    requires 0 < cap
    requires (forall j :: j in was <==> Alive(trace, j, cap))
             && forall j | j in was :: Holds(was[j], Matches(trace, j, cap))
    requires var keys := Order(trace, cap);
             var kept := if k !in keys && |keys| >= cap && keys != [] then was - {keys[0]} else was;
             later == kept[k := combined]
    requires var existing := if k in was then was[k] else {};
             combined <= existing + ms
             && |combined| == if |existing + ms| <= MATCH_CAP then |existing + ms| else MATCH_CAP
    ensures forall j :: j in later <==> Alive(trace + [Add(k, ms)], j, cap)
    ensures forall j | j in later :: Holds(later[j], Matches(trace + [Add(k, ms)], j, cap))
  {
    hide Alive, Order, Matches, Holds;
    forall j: K
      ensures j in later <==> Alive(trace + [Add(k, ms)], j, cap)
    {
      AliveAfterAdd(trace, k, ms, cap, j);
    }
    NothingHeld();
    forall j | j in later
      ensures Holds(later[j], Matches(trace + [Add(k, ms)], j, cap))
    {
      MatchesNext(trace, Add(k, ms), j, cap);
      if j == k {
        HoldsNext(if k in was then was[k] else {}, if k in was then Matches(trace, k, cap) else {}, ms, combined);
      }
    }
  }

  lemma NothingHeld()
    ensures Holds({}, {})
  {
  }

  lemma FingerprintAgrees<K(!new)>(trace: Trace<K, Fingerprint>, k: K, v: Fingerprint, cap: nat,
                                   was: map<K, Fingerprint>,
                                   later: map<K, Fingerprint>)
    requires 0 < cap
    requires (forall j :: j in was <==> Alive(trace, j, cap))
             && forall j | j in was :: LastValue(trace, j) == Some(was[j])
    requires var keys := Order(trace, cap);
             var kept := if k !in keys && |keys| >= cap && keys != [] then was - {keys[0]} else was;
             later == kept[k := v]
    ensures forall j :: j in later <==> Alive(trace + [Add(k, v)], j, cap)
    ensures forall j | j in later :: LastValue(trace + [Add(k, v)], j) == Some(later[j])
  {
    hide Alive, Order, LastValue;
    forall j: K
      ensures j in later <==> Alive(trace + [Add(k, v)], j, cap)
      ensures j in later ==> LastValue(trace + [Add(k, v)], j) == Some(later[j])
    {
      AliveAfterAdd(trace, k, v, cap, j);
      LastValueNext(trace, Add(k, v), j);
    }
  }

  lemma HandedOver<K(!new)>(trace: Trace<K, set<string>>, k: K, cap: nat, matches: set<string>)
    requires MayHandOver(trace, k, cap, matches)
    ensures matches <= Since(trace, k)
    ensures BelowCap(trace, cap) && |Since(trace, k)| <= MATCH_CAP ==> matches == Since(trace, k)
  {
    hide Alive, Matches, Since, BelowCap, Live;
    NeverAnotherKeys(trace, k, cap);
    if BelowCap(trace, cap) && |Since(trace, k)| <= MATCH_CAP {
      NothingLostBelowCap(trace, k, cap);
      NobodyEvicted(trace, k, cap);
      if Alive(trace, k, cap) {
        HoldsAll(matches, Since(trace, k));
      } else {
        NoMatchesWhenNotLive(trace, k);
      }
    }
  }

  lemma PopAgrees<K(!new)>(trace: Trace<K, set<string>>, k: K, cap: nat, was: map<K, set<string>>)
    requires (forall j :: j in was <==> Alive(trace, j, cap))
             && forall j | j in was :: Holds(was[j], Matches(trace, j, cap))
    ensures Order(trace + [Pop(k)], cap) == Without(Order(trace, cap), k)
    ensures forall j :: j in was - {k} <==> Alive(trace + [Pop(k)], j, cap)
    ensures forall j | j in was - {k} :: Holds((was - {k})[j], Matches(trace + [Pop(k)], j, cap))
  {
    hide Alive, Rivals, Matches, Order, Holds;
    OrderNext(trace, Pop(k), cap);
    forall j: K
      ensures j in was - {k} <==> Alive(trace + [Pop(k)], j, cap)
      ensures j in was - {k} ==> Matches(trace + [Pop(k)], j, cap) == Matches(trace, j, cap)
    {
      RivalsNext(trace, Pop(k), j, cap);
      MatchesNext(trace, Pop(k), j, cap);
    }
  }

  lemma PopFingerprintAgrees<K(!new)>(trace: Trace<K, Fingerprint>, k: K, cap: nat, was: map<K, Fingerprint>)
    requires (forall j :: j in was <==> Alive(trace, j, cap))
             && forall j | j in was :: LastValue(trace, j) == Some(was[j])
    ensures Order(trace + [Pop(k)], cap) == Without(Order(trace, cap), k)
    ensures forall j :: j in was - {k} <==> Alive(trace + [Pop(k)], j, cap)
    ensures forall j | j in was - {k} :: LastValue(trace + [Pop(k)], j) == Some((was - {k})[j])
  {
    hide Alive, Rivals, LastValue, Order;
    OrderNext(trace, Pop(k), cap);
    forall j: K
      ensures j in was - {k} <==> Alive(trace + [Pop(k)], j, cap)
      ensures j in was - {k} ==> LastValue(trace + [Pop(k)], j) == LastValue(trace, j)
    {
      RivalsNext(trace, Pop(k), j, cap);
      LastValueNext(trace, Pop(k), j);
    }
  }
}
