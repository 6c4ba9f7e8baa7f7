/** The expiry index: a min-heap of (time, key) entries, after Python's `heapq`. */
module MinHeap {

  datatype Heap<K> = Leaf | Node(time: real, key: K, left: Heap<K>, right: Heap<K>)

  ghost function Elements<K>(h: Heap<K>): multiset<(real, K)> {
    match h
    case Leaf => multiset{}
    case Node(t, k, l, r) => multiset{(t, k)} + Elements(l) + Elements(r)
  }

  ghost predicate AtLeast<K>(h: Heap<K>, t: real) {
    h.Node? ==> t <= h.time
  }

  ghost predicate IsHeap<K>(h: Heap<K>) {
    match h
    case Leaf => true
    case Node(t, k, l, r) => AtLeast(l, t) && AtLeast(r, t) && IsHeap(l) && IsHeap(r)
  }

  function Size<K>(h: Heap<K>): nat {
    match h
    case Leaf => 0
    case Node(t, k, l, r) => 1 + Size(l) + Size(r)
  }

  function Merge<K>(a: Heap<K>, b: Heap<K>): (m: Heap<K>)
    ensures Elements(m) == Elements(a) + Elements(b)
    ensures IsHeap(a) && IsHeap(b) ==> IsHeap(m)
    ensures forall t :: AtLeast(a, t) && AtLeast(b, t) ==> AtLeast(m, t)
    decreases Size(a) + Size(b)
  {
    if a.Leaf? then b
    else if b.Leaf? then a
    else if a.time <= b.time then Node(a.time, a.key, Merge(b, a.right), a.left)
    else Node(b.time, b.key, Merge(a, b.right), b.left)
  }

  /** `heappush` */
  function Insert<K>(h: Heap<K>, t: real, k: K): Heap<K> {
    Merge(Node(t, k, Leaf, Leaf), h)
  }

  lemma InsertAddsEntry<K>(h: Heap<K>, t: real, k: K)
    ensures Elements(Insert(h, t, k)) == Elements(h) + multiset{(t, k)}
    ensures IsHeap(h) ==> IsHeap(Insert(h, t, k))
  {
    hide Merge;
    SingleEntry(t, k);
  }

  lemma SingleEntry<K>(t: real, k: K)
    ensures Elements(Node(t, k, Leaf, Leaf)) == multiset{(t, k)}
    ensures IsHeap(Node(t, k, Leaf, Leaf))
  {
  }

  /** `heappop`, less the popped root. */
  function DeleteMin<K>(h: Heap<K>): Heap<K>
    requires h.Node?
  {
    Merge(h.left, h.right)
  }

  lemma DeleteMinRemovesRoot<K>(h: Heap<K>)
    requires h.Node?
    ensures Elements(DeleteMin(h)) == Elements(h) - multiset{(h.time, h.key)}
    ensures IsHeap(h) ==> IsHeap(DeleteMin(h))
  {
    hide Merge;
  }

  /** The root is a least entry. */
  lemma {:induction false} RootIsLeast<K>(h: Heap<K>, t: real, k: K)
    requires IsHeap(h) && (t, k) in Elements(h)
    ensures h.Node? && h.time <= t
  {
    if h.Node? {
      if (t, k) in Elements(h.left) {
        RootIsLeast(h.left, t, k);
      } else if (t, k) in Elements(h.right) {
        RootIsLeast(h.right, t, k);
      }
    }
  }

  /** Rebuild the heap from the entries whose key is still in `keys`. */
  function Compact<K(==)>(h: Heap<K>, keys: set<K>): Heap<K> {
    match h
    case Leaf => Leaf
    case Node(t, k, l, r) =>
      var rest := Merge(Compact(l, keys), Compact(r, keys));
      if k in keys then Insert(rest, t, k) else rest
  }

  lemma {:induction false} CompactEntries<K>(h: Heap<K>, keys: set<K>, t: real, k: K)
    ensures IsHeap(Compact(h, keys))
    ensures Elements(Compact(h, keys))[(t, k)] == if k in keys then Elements(h)[(t, k)] else 0
  {
    hide Merge, Insert, IsHeap, Elements;
    if h.Leaf? {
      LeafIsHeap<K>();
    } else {
      CompactEntries(h.left, keys, t, k);
      CompactEntries(h.right, keys, t, k);
      var rest := Merge(Compact(h.left, keys), Compact(h.right, keys));
      InsertAddsEntry(rest, h.time, h.key);
      NodeEntry(h, t, k);
      hide Compact;
      assert Elements(rest)[(t, k)]
          == Elements(Compact(h.left, keys))[(t, k)] + Elements(Compact(h.right, keys))[(t, k)];
    }
  }

  lemma NodeEntry<K>(h: Heap<K>, t: real, k: K)
    requires h.Node?
    ensures Elements(h)[(t, k)] ==
            (if h.time == t && h.key == k then 1 else 0) + Elements(h.left)[(t, k)] + Elements(h.right)[(t, k)]
  {
  }

  lemma LeafIsHeap<K>()
    ensures IsHeap<K>(Leaf) && Elements<K>(Leaf) == multiset{}
  {
  }

  /** The entries due at `cutoff`. */
  ghost function Due<K>(h: Heap<K>, cutoff: real): multiset<(real, K)> {
    match h
    case Leaf => multiset{}
    case Node(t, k, l, r) =>
      (if t <= cutoff then multiset{(t, k)} else multiset{}) + Due(l, cutoff) + Due(r, cutoff)
  }

  lemma {:induction false} DueEntries<K>(h: Heap<K>, cutoff: real, t: real, k: K)
    ensures Due(h, cutoff)[(t, k)] == if t <= cutoff then Elements(h)[(t, k)] else 0
  {
    if h.Node? {
      DueEntries(h.left, cutoff, t, k);
      DueEntries(h.right, cutoff, t, k);
    }
  }
}
