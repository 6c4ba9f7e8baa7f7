/** The set of a sequence's elements, and sizes of sets. */
module Sets {

  function SetOf<T(==, !new)>(s: seq<T>): set<T> {
    set x | x in s
  }

  lemma SetOfEnds<T(!new)>(s: seq<T>, x: T)
    ensures SetOf(s + [x]) == SetOf(s) + {x} && SetOf<T>([]) == {}
  {
  }

  lemma SubsetSize<T>(a: set<T>, b: set<T>)
    requires a <= b
    ensures |a| <= |b|
  {
    assert b == a + (b - a);
  }

  lemma FullSubset<T>(a: set<T>, b: set<T>)
    requires a <= b && |a| >= |b|
    ensures a == b
  {
    assert b == a + (b - a);
  }
}
