/** The state-root treap as a value: a binary search tree on keys that is at the
    same time a min-heap on the priorities that hashing gives the keys. */
module Treap {
  /** How keys compare, and the priority that hashing gives each key. */
  datatype Scheme<!K> = Scheme(less: (K, K) -> bool, priority: K -> int)

  datatype Tree<K, H> = Empty | Node(left: Tree<K, H>, key: K, leaf: H, right: Tree<K, H>)

  // ---------------------------------------------------------------- operations

  function RotateRight<K, H>(t: Tree<K, H>): Tree<K, H>
    requires t.Node? && t.left.Node?
  {
    t.left.(right := t.(left := t.left.right))
  }

  function RotateLeft<K, H>(t: Tree<K, H>): Tree<K, H>
    requires t.Node? && t.right.Node?
  {
    t.right.(left := t.(right := t.right.left))
  }

  function Insert<K(==), H>(s: Scheme<K>, t: Tree<K, H>, key: K, leaf: H): (r: Tree<K, H>)
    ensures r.Node?
  {
    if t.Empty? then
      Node(Empty, key, leaf, Empty)
    else if key == t.key then
      t.(leaf := leaf)
    else if s.less(key, t.key) then
      var grown := t.(left := Insert(s, t.left, key, leaf));
      if s.priority(grown.left.key) < s.priority(t.key) then RotateRight(grown) else grown
    else
      var grown := t.(right := Insert(s, t.right, key, leaf));
      if s.priority(grown.right.key) < s.priority(t.key) then RotateLeft(grown) else grown
  }

  function Merge<K, H>(s: Scheme<K>, l: Tree<K, H>, r: Tree<K, H>): Tree<K, H> {
    if l.Empty? then r
    else if r.Empty? then l
    else if s.priority(l.key) < s.priority(r.key) then l.(right := Merge(s, l.right, r))
    else r.(left := Merge(s, l, r.left))
  }

  function Delete<K(==), H>(s: Scheme<K>, t: Tree<K, H>, key: K): Tree<K, H> {
    if t.Empty? then Empty
    else if key == t.key then Merge(s, t.left, t.right)
    else if s.less(key, t.key) then t.(left := Delete(s, t.left, key))
    else t.(right := Delete(s, t.right, key))
  }

  // ------------------------------------------------------------------- meaning

  function Join<K, H>(below: map<K, H>, key: K, leaf: H, above: map<K, H>): map<K, H> {
    below[key := leaf] + above
  }

  /** The dictionary of leaf hashes that a tree stores. */
  function Contents<K, H>(t: Tree<K, H>): map<K, H> {
    if t.Empty? then map[] else Join(Contents(t.left), t.key, t.leaf, Contents(t.right))
  }

  ghost predicate TotalOrder<K(!new)>(s: Scheme<K>) {
    && (forall a :: !s.less(a, a))
    && (forall a, b :: a == b || s.less(a, b) || s.less(b, a))
    && (forall a, b, c :: s.less(a, b) && s.less(b, c) ==> s.less(a, c))
  }

  ghost predicate AllBelow<K(!new), H>(s: Scheme<K>, m: map<K, H>, key: K) {
    forall k :: k in m ==> s.less(k, key)
  }

  ghost predicate AllAbove<K(!new), H>(s: Scheme<K>, m: map<K, H>, key: K) {
    forall k :: k in m ==> s.less(key, k)
  }

  ghost predicate Ordered<K(!new), H>(s: Scheme<K>, t: Tree<K, H>) {
    t.Node? ==>
      && Ordered(s, t.left) && AllBelow(s, Contents(t.left), t.key)
      && Ordered(s, t.right) && AllAbove(s, Contents(t.right), t.key)
  }

  ghost predicate NoneLighter<K(!new), H>(s: Scheme<K>, m: map<K, H>, bound: int) {
    forall k :: k in m ==> bound <= s.priority(k)
  }

  ghost predicate Heaped<K(!new), H>(s: Scheme<K>, t: Tree<K, H>) {
    t.Node? ==>
      && Heaped(s, t.left) && NoneLighter(s, Contents(t.left), s.priority(t.key))
      && Heaped(s, t.right) && NoneLighter(s, Contents(t.right), s.priority(t.key))
  }

  /** What every treap operation keeps. */
  ghost predicate Valid<K(!new), H>(s: Scheme<K>, t: Tree<K, H>) {
    Ordered(s, t) && Heaped(s, t)
  }

  lemma {:induction false} JoinAssociates<K(!new), H>(
      s: Scheme<K>, a: map<K, H>, k1: K, x: H, b: map<K, H>, k2: K, y: H, c: map<K, H>)
    requires TotalOrder(s)
    requires AllBelow(s, a, k1) && AllAbove(s, b, k1) && AllBelow(s, b, k2) && AllAbove(s, c, k2)
    requires s.less(k1, k2)
    ensures Join(Join(a, k1, x, b), k2, y, c) == Join(a, k1, x, Join(b, k2, y, c))
    ensures AllBelow(s, Join(a, k1, x, b), k2) && AllAbove(s, Join(b, k2, y, c), k1)
  {
  }

  lemma {:induction false} RotateRightKeeps<K(!new), H>(s: Scheme<K>, t: Tree<K, H>)
    requires TotalOrder(s) && t.Node? && t.left.Node? && Ordered(s, t)
    ensures Ordered(s, RotateRight(t)) && Contents(RotateRight(t)) == Contents(t)
  {
    var l := t.left;
    var a, b, c := Contents(l.left), Contents(l.right), Contents(t.right);
    assert l.key in Contents(l) && forall k :: k in b ==> k in Contents(l);
    JoinAssociates(s, a, l.key, l.leaf, b, t.key, t.leaf, c);
  }

  lemma {:induction false} RotateLeftKeeps<K(!new), H>(s: Scheme<K>, t: Tree<K, H>)
    requires TotalOrder(s) && t.Node? && t.right.Node? && Ordered(s, t)
    ensures Ordered(s, RotateLeft(t)) && Contents(RotateLeft(t)) == Contents(t)
  {
    var r := t.right;
    var a, b, c := Contents(t.left), Contents(r.left), Contents(r.right);
    assert r.key in Contents(r) && forall k :: k in b ==> k in Contents(r);
    JoinAssociates(s, a, t.key, t.leaf, b, r.key, r.leaf, c);
  }

  lemma {:induction false} JoinPut<K(!new), H>(
      s: Scheme<K>, below: map<K, H>, key: K, leaf: H, above: map<K, H>, k: K, x: H)
    requires TotalOrder(s) && AllBelow(s, below, key) && AllAbove(s, above, key)
    ensures s.less(k, key) ==>
      && AllBelow(s, below[k := x], key)
      && Join(below[k := x], key, leaf, above) == Join(below, key, leaf, above)[k := x]
    ensures s.less(key, k) ==>
      && AllAbove(s, above[k := x], key)
      && Join(below, key, leaf, above[k := x]) == Join(below, key, leaf, above)[k := x]
  {
  }

  lemma {:induction false} JoinRemove<K(!new), H>(
      s: Scheme<K>, below: map<K, H>, key: K, leaf: H, above: map<K, H>, k: K)
    requires TotalOrder(s) && AllBelow(s, below, key) && AllAbove(s, above, key)
    ensures s.less(k, key) ==> Join(below - {k}, key, leaf, above) == Join(below, key, leaf, above) - {k}
    ensures s.less(key, k) ==> Join(below, key, leaf, above - {k}) == Join(below, key, leaf, above) - {k}
    ensures below + above == Join(below, key, leaf, above) - {key}
  {
  }

  /** One level of an insertion: a new left subtree takes its place, and a lighter
      new key rotates up. */
  lemma {:induction false} GraftLeft<K(!new), H>(s: Scheme<K>, t: Tree<K, H>, l: Tree<K, H>, key: K, leaf: H)
    requires TotalOrder(s) && Valid(s, t) && t.Node? && s.less(key, t.key)
    requires l.Node? && Valid(s, l) && Contents(l) == Contents(t.left)[key := leaf]
    ensures Ordered(s, t.(left := l)) && Contents(t.(left := l)) == Contents(t)[key := leaf]
    ensures s.priority(t.key) <= s.priority(l.key) ==> Heaped(s, t.(left := l))
    ensures s.priority(l.key) < s.priority(t.key) ==> Heaped(s, RotateRight(t.(left := l)))
  {
    JoinPut(s, Contents(t.left), t.key, t.leaf, Contents(t.right), key, leaf);
    assert l.key in Contents(l);
    assert forall k :: k in Contents(l.left) || k in Contents(l.right) ==> k in Contents(l);
    if s.priority(l.key) < s.priority(t.key) {
      assert l.key == key && key !in Contents(l.right);
      assert NoneLighter(s, Contents(t.left), s.priority(t.key));
      assert NoneLighter(s, Contents(l.right), s.priority(t.key));
      assert Heaped(s, t.(left := l.right));
    }
  }

  lemma {:induction false} GraftRight<K(!new), H>(s: Scheme<K>, t: Tree<K, H>, r: Tree<K, H>, key: K, leaf: H)
    requires TotalOrder(s) && Valid(s, t) && t.Node? && s.less(t.key, key)
    requires r.Node? && Valid(s, r) && Contents(r) == Contents(t.right)[key := leaf]
    ensures Ordered(s, t.(right := r)) && Contents(t.(right := r)) == Contents(t)[key := leaf]
    ensures s.priority(t.key) <= s.priority(r.key) ==> Heaped(s, t.(right := r))
    ensures s.priority(r.key) < s.priority(t.key) ==> Heaped(s, RotateLeft(t.(right := r)))
  {
    JoinPut(s, Contents(t.left), t.key, t.leaf, Contents(t.right), key, leaf);
    assert r.key in Contents(r);
    assert forall k :: k in Contents(r.left) || k in Contents(r.right) ==> k in Contents(r);
    if s.priority(r.key) < s.priority(t.key) {
      assert r.key == key && key !in Contents(r.left);
      assert NoneLighter(s, Contents(t.right), s.priority(t.key));
      assert NoneLighter(s, Contents(r.left), s.priority(t.key));
      assert Heaped(s, t.(right := r.left));
    }
  }

  lemma {:induction false} InsertCorrect<K(!new), H>(s: Scheme<K>, t: Tree<K, H>, key: K, leaf: H)
    requires TotalOrder(s) && Valid(s, t)
    ensures Valid(s, Insert(s, t, key, leaf))
    ensures Contents(Insert(s, t, key, leaf)) == Contents(t)[key := leaf]
  {
    if t.Empty? || key == t.key {
    } else if s.less(key, t.key) {
      var l := Insert(s, t.left, key, leaf);
      InsertCorrect(s, t.left, key, leaf);
      GraftLeft(s, t, l, key, leaf);
      if s.priority(l.key) < s.priority(t.key) {
        RotateRightKeeps(s, t.(left := l));
      }
    } else {
      var r := Insert(s, t.right, key, leaf);
      InsertCorrect(s, t.right, key, leaf);
      GraftRight(s, t, r, key, leaf);
      if s.priority(r.key) < s.priority(t.key) {
        RotateLeftKeeps(s, t.(right := r));
      }
    }
  }

  /** Every key of one dictionary comes before every key of the other. */
  ghost predicate Precedes<K(!new), H>(s: Scheme<K>, l: map<K, H>, r: map<K, H>) {
    forall a, b :: a in l && b in r ==> s.less(a, b)
  }

  lemma {:induction false} JoinThen<K(!new), H>(
      s: Scheme<K>, below: map<K, H>, key: K, leaf: H, above: map<K, H>, other: map<K, H>)
    requires TotalOrder(s) && AllBelow(s, below, key) && AllAbove(s, above, key)
    requires Precedes(s, Join(below, key, leaf, above), other)
    ensures Precedes(s, above, other) && AllAbove(s, above + other, key)
    ensures Join(below, key, leaf, above + other) == Join(below, key, leaf, above) + other
  {
    assert key in Join(below, key, leaf, above);
    assert forall k :: k in above ==> k in Join(below, key, leaf, above);
  }

  lemma {:induction false} ThenJoin<K(!new), H>(
      s: Scheme<K>, other: map<K, H>, below: map<K, H>, key: K, leaf: H, above: map<K, H>)
    requires TotalOrder(s) && AllBelow(s, below, key) && AllAbove(s, above, key)
    requires Precedes(s, other, Join(below, key, leaf, above))
    ensures Precedes(s, other, below) && AllBelow(s, other + below, key)
    ensures Join(other + below, key, leaf, above) == other + Join(below, key, leaf, above)
  {
    assert key in Join(below, key, leaf, above);
    assert forall k :: k in below || k in above ==> k in Join(below, key, leaf, above);
  }

  lemma {:induction false} MergeCorrect<K(!new), H>(s: Scheme<K>, l: Tree<K, H>, r: Tree<K, H>)
    requires TotalOrder(s) && Valid(s, l) && Valid(s, r) && Precedes(s, Contents(l), Contents(r))
    ensures Valid(s, Merge(s, l, r)) && Contents(Merge(s, l, r)) == Contents(l) + Contents(r)
  {
    if l.Node? && r.Node? {
      if s.priority(l.key) < s.priority(r.key) {
        JoinThen(s, Contents(l.left), l.key, l.leaf, Contents(l.right), Contents(r));
        MergeCorrect(s, l.right, r);
        HeapedBound(s, r);
      } else {
        ThenJoin(s, Contents(l), Contents(r.left), r.key, r.leaf, Contents(r.right));
        MergeCorrect(s, l, r.left);
        HeapedBound(s, l);
      }
    }
  }

  lemma {:induction false} HeapedBound<K(!new), H>(s: Scheme<K>, t: Tree<K, H>)
    requires Heaped(s, t) && t.Node?
    ensures NoneLighter(s, Contents(t), s.priority(t.key))
  {
  }

  lemma {:induction false} DeleteCorrect<K(!new), H>(s: Scheme<K>, t: Tree<K, H>, key: K)
    requires TotalOrder(s) && Valid(s, t)
    ensures Valid(s, Delete(s, t, key))
    ensures Contents(Delete(s, t, key)) == Contents(t) - {key}
  {
    if t.Node? {
      JoinRemove(s, Contents(t.left), t.key, t.leaf, Contents(t.right), key);
      if key == t.key {
        MergeCorrect(s, t.left, t.right);
      } else if s.less(key, t.key) {
        DeleteCorrect(s, t.left, key);
      } else {
        DeleteCorrect(s, t.right, key);
      }
    }
  }
}
