/** Python's `deque(maxlen=cap)`: appending to a full deque drops its oldest entry. */
module Deque {

  function Push<T>(q: seq<T>, x: T, cap: nat): (r: seq<T>)
    ensures |q| <= cap ==> |r| == if |q| < cap then |q| + 1 else cap
  {
    var all := q + [x];
    if |all| <= cap then all else all[|all| - cap..]
  }

  /** The last `n` entries of `s`, or all of it when it is shorter. */
  function Newest<T>(s: seq<T>, n: nat): (r: seq<T>)
    ensures |r| == if |s| < n then |s| else n
  {
    if |s| <= n then s else s[|s| - n..]
  }

  lemma PushIsNewest<T>(q: seq<T>, x: T, cap: nat)
    ensures Push(q, x, cap) == Newest(q + [x], cap)
  {
  }

  /** A bounded deque fed one by one always holds the newest `cap` entries. */
  lemma PushNewest<T>(s: seq<T>, x: T, cap: nat)
    ensures Push(Newest(s, cap), x, cap) == Newest(s + [x], cap)
  {
    var q, all := Newest(s, cap), s + [x];
    if |all| > cap {
      assert q + [x] == all[|all| - |q| - 1..];
    }
  }

  lemma NewestAt<T>(s: seq<T>, n: nat, i: nat)
    requires i < |Newest(s, n)|
    ensures Newest(s, n)[i] == s[|s| - |Newest(s, n)| + i]
  {
  }
}
