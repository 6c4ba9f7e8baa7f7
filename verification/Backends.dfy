/** The Guardian's mitigation backend: a disallowed list that can only be replaced as a whole. */
module Backends {

  /** `list.remove`: the first occurrence goes. */
  function RemoveFirst(l: seq<string>, ip: string): seq<string> {
    if l == [] then []
    else if l[0] == ip then l[1..]
    else [l[0]] + RemoveFirst(l[1..], ip)
  }

  datatype Call = Block(ip: string) | Unblock(ip: string)

  /** Whether the call posts a new list when it reads `l`. */
  predicate Writes(l: seq<string>, c: Call) {
    match c
    case Block(ip) => ip !in l
    case Unblock(ip) => ip in l
  }

  /** The list after the call has run alone. */
  function After(l: seq<string>, c: Call): seq<string> {
    match c
    case Block(ip) => if ip in l then l else l + [ip]
    case Unblock(ip) => RemoveFirst(l, ip)
  }

  lemma {:induction false} RemoveFirstCounts(l: seq<string>, ip: string)
    ensures multiset(RemoveFirst(l, ip)) == multiset(l) - multiset{ip}
    ensures ip !in l ==> RemoveFirst(l, ip) == l
    ensures |RemoveFirst(l, ip)| == if ip in l then |l| - 1 else |l|
  {
    if l != [] {
      assert l == [l[0]] + l[1..];
      RemoveFirstCounts(l[1..], ip);
    }
  }

  /** The entries of everybody else, in their order. */
  function Others(l: seq<string>, ip: string): seq<string> {
    if l == [] then [] else (if l[0] == ip then [] else [l[0]]) + Others(l[1..], ip)
  }

  lemma {:induction false} OthersAppend(l: seq<string>, x: string, ip: string)
    ensures Others(l + [x], ip) == Others(l, ip) + if x == ip then [] else [x]
  {
    if l == [] {
      assert Others([x][1..], ip) == [];
    } else {
      OthersAppend(l[1..], x, ip);
      assert (l + [x])[1..] == l[1..] + [x];
    }
  }

  /** A call touches no other client's entry, nor their order. */
  lemma {:induction false} CallKeepsOthers(l: seq<string>, c: Call)
    ensures Others(After(l, c), c.ip) == Others(l, c.ip)
  {
    match c
    case Block(ip) => OthersAppend(l, ip, ip);
    case Unblock(ip) =>
      if l != [] && l[0] != ip {
        CallKeepsOthers(l[1..], c);
        assert After(l, c)[1..] == After(l[1..], c);
      }
  }

  lemma AfterMembers(l: seq<string>, c: Call, ip: string)
    ensures ip != c.ip ==> multiset(After(l, c))[ip] == multiset(l)[ip]
    ensures c.Block? ==> multiset(After(l, c))[c.ip] == if c.ip in l then multiset(l)[c.ip] else 1
    ensures c.Unblock? && c.ip in l ==> multiset(After(l, c))[c.ip] == multiset(l)[c.ip] - 1
    ensures c.Unblock? && c.ip !in l ==> After(l, c) == l
  {
    RemoveFirstCounts(l, c.ip);
    assert c.ip in l <==> c.ip in multiset(l);
  }

  /** Unblocking releases a client exactly when the list did not name it twice. */
  lemma UnblockReleasesIff(l: seq<string>, ip: string)
    ensures ip !in After(l, Unblock(ip)) <==> multiset(l)[ip] <= 1
  {
    RemoveFirstCounts(l, ip);
    assert ip in After(l, Unblock(ip)) <==> ip in multiset(After(l, Unblock(ip)));
  }

  /** A block undone leaves the list as it was exactly when the client was not already on it. */
  lemma {:induction false} UnblockUndoesBlockIff(l: seq<string>, ip: string)
    ensures After(After(l, Block(ip)), Unblock(ip)) == l <==> ip !in l
  {
    if ip in l {
      RemoveFirstCounts(l, ip);
    } else {
      RemoveLast(l, ip);
    }
  }

  lemma {:induction false} RemoveLast(l: seq<string>, ip: string)
    requires ip !in l
    ensures RemoveFirst(l + [ip], ip) == l
  {
    if l != [] {
      RemoveLast(l[1..], ip);
      assert (l + [ip])[1..] == l[1..] + [ip];
    }
  }

  /** Two overlapping calls: both read `l`, then `first` posts its list, then `second`. */
  function Overlapped(l: seq<string>, first: Call, second: Call): seq<string> {
    if Writes(l, second) then After(l, second) else After(l, first)
  }

  ghost predicate LosesNothing(l: seq<string>, first: Call, second: Call) {
    || !Writes(l, first)
    || !Writes(l, second)
    || (first == second && (first.Block? || multiset(l)[first.ip] == 1))
  }

  ghost predicate ActsInTurn(l: seq<string>, first: Call, second: Call) {
    || Overlapped(l, first, second) == After(After(l, first), second)
    || Overlapped(l, first, second) == After(After(l, second), first)
  }

  /** Overlapping calls act like one after the other exactly when not both of them post a change. */
  lemma OverlapIsSerialIff(l: seq<string>, first: Call, second: Call)
    ensures ActsInTurn(l, first, second) <==> LosesNothing(l, first, second)
  {
    hide After, ActsInTurn;
    if !Writes(l, first) || !Writes(l, second) {
      QuietOverlap(l, first, second);
    } else if LosesNothing(l, first, second) {
      SameCallTwice(l, first);
    } else {
      ClashingCalls(l, first, second);
    }
  }

  lemma QuietOverlap(l: seq<string>, first: Call, second: Call)
    requires !Writes(l, first) || !Writes(l, second)
    ensures ActsInTurn(l, first, second)
  {
    hide RemoveFirst;
    RemoveFirstCounts(l, first.ip);
    RemoveFirstCounts(l, second.ip);
  }

  lemma SameCallTwice(l: seq<string>, c: Call)
    requires Writes(l, c) && (c.Block? || multiset(l)[c.ip] == 1)
    ensures ActsInTurn(l, c, c)
  {
    hide RemoveFirst;
    UnblockReleasesIff(l, c.ip);
    RemoveFirstCounts(After(l, c), c.ip);
  }

  lemma ClashingCalls(l: seq<string>, first: Call, second: Call)
    requires Writes(l, first) && Writes(l, second) && !LosesNothing(l, first, second)
    ensures !ActsInTurn(l, first, second)
  {
    hide After;
    OverlapLengths(l, first, second);
    OverlapLengths(l, second, first);
  }

  lemma OverlapLengths(l: seq<string>, a: Call, b: Call)
    requires Writes(l, a) && Writes(l, b)
    ensures a != b || (a.Unblock? && multiset(l)[a.ip] != 1)
        ==> |After(After(l, a), b)| == |l| + Grows(a) + Grows(b)
    ensures |After(l, b)| == |l| + Grows(b)
  {
    AfterMembers(l, a, b.ip);
    RemoveFirstCounts(l, a.ip);
    RemoveFirstCounts(l, b.ip);
    RemoveFirstCounts(After(l, a), b.ip);
    assert b.ip in After(l, a) <==> b.ip in multiset(After(l, a));
    assert b.ip in l <==> b.ip in multiset(l);
  }

  function Grows(c: Call): int {
    if c.Block? then 1 else -1
  }

  /** The two methods, each with its read and its post. */
  class AdGuardBackend {
    var disallowed: seq<string>

    constructor (l: seq<string>)
      ensures disallowed == l
    {
      disallowed := l;
    }

    method Block(ip: string) returns (posted: bool)
      modifies this
      ensures posted == Writes(old(disallowed), Call.Block(ip))
      ensures disallowed == After(old(disallowed), Call.Block(ip)) && ip in disallowed
    {
      posted := ip !in disallowed;
      if posted {
        disallowed := disallowed + [ip];
      }
    }

    method Unblock(ip: string) returns (posted: bool)
      modifies this
      ensures posted == Writes(old(disallowed), Call.Unblock(ip))
      ensures disallowed == After(old(disallowed), Call.Unblock(ip))
      ensures ip in disallowed <==> multiset(old(disallowed))[ip] > 1
    {
      posted := ip in disallowed;
      UnblockReleasesIff(disallowed, ip);
      RemoveFirstCounts(disallowed, ip);
      if posted {
        disallowed := RemoveFirst(disallowed, ip);
      }
    }
  }
}
