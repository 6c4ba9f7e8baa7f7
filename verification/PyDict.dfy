/** Python dictionaries: a finite map that also remembers the order in which its keys were inserted. */
module PyDict {
  import opened Wrappers

  datatype Dict<K(==,!new), V> = Dict(keys: seq<K>, vals: map<K, V>) {

    ghost predicate Valid() {
      && (forall k | k in keys :: k in vals)
      && (forall k | k in vals :: k in keys)
      && NoDuplicates(keys)
    }

    function Get(k: K): Option<V> {
      if k in vals then Some(vals[k]) else None
    }

    function GetOr(k: K, default: V): V {
      if k in vals then vals[k] else default
    }

    /** `d[k] = v`: a new key goes last, an old key keeps its place. */
    function Put(k: K, v: V): (d: Dict<K, V>)
      ensures Valid() ==> d.Valid()
    {
      if k in vals then Dict(keys, vals[k := v])
      else
        assert Valid() ==> NoDuplicates(keys + [k]) by { if Valid() { assert k !in keys; } }
        Dict(keys + [k], vals[k := v])
    }

    /** `d.pop(k, None)` */
    function Remove(k: K): (d: Dict<K, V>)
      ensures Valid() ==> d.Valid()
      ensures d.vals == vals - {k}
      ensures d.keys == Without(keys, k)
    {
      WithoutProperties(keys, k);
      var d := Dict(Without(keys, k), vals - {k});
      assert forall j | j in d.keys :: j in keys && j != k;
      d
    }
  }

  ghost predicate NoDuplicates<T>(s: seq<T>) {
    forall i, j | 0 <= i < j < |s| :: s[i] != s[j]
  }

  function Empty<K(==,!new), V>(): (d: Dict<K, V>)
    ensures d.Valid()
  {
    Dict([], map[])
  }

  function Without<T(==,!new)>(s: seq<T>, x: T): seq<T> {
    if s == [] then []
    else if s[|s| - 1] == x then Without(s[..|s| - 1], x)
    else Without(s[..|s| - 1], x) + [s[|s| - 1]]
  }

  lemma {:induction false} WithoutProperties<T(!new)>(s: seq<T>, x: T)
    ensures forall y :: y in Without(s, x) <==> y in s && y != x
    ensures NoDuplicates(s) ==> NoDuplicates(Without(s, x))
    ensures |Without(s, x)| <= |s|
    ensures NoDuplicates(s) && x in s ==> |Without(s, x)| == |s| - 1
    ensures x !in s ==> Without(s, x) == s
  {
    if s != [] {
      hide NoDuplicates;
      var init, last := s[..|s| - 1], s[|s| - 1];
      assert s == init + [last];
      WithoutProperties(init, x);
      DuplicatesAppend(init, last);
      DuplicatesAppend(Without(init, x), last);
    } else {
      assert Without(s, x) == s;
    }
  }

  lemma DuplicatesAppend<T(!new)>(s: seq<T>, x: T)
    ensures NoDuplicates(s + [x]) <==> NoDuplicates(s) && x !in s
  {
    var t := s + [x];
    assert t[|s|] == x && forall i | 0 <= i < |s| :: t[i] == s[i];
  }

  /** A duplicate-free list is as long as the set of its elements. */
  lemma {:induction false} NoDuplicatesSize<T(!new)>(s: seq<T>, elements: set<T>)
    requires NoDuplicates(s)
    requires forall x :: x in s <==> x in elements
    ensures |s| == |elements|
  {
    if s == [] {
      assert elements == {};
    } else {
      var init, last := s[..|s| - 1], s[|s| - 1];
      assert forall x :: x in s <==> x in init || x == last;
      assert last !in init;
      NoDuplicatesSize(init, elements - {last});
    }
  }
}
