/** History independence: which dictionaries determine their treap. */
module History {
  import opened Basics
  import opened Treap

  /** Two keys of equal priority are harmless exactly when a lighter key lies between them. */
  ghost predicate Separated<K(!new), H>(s: Scheme<K>, m: map<K, H>) {
    forall a, b :: a in m && b in m && s.less(a, b) && s.priority(a) == s.priority(b) ==>
      exists c :: c in m && Between(s, a, c, b) && s.priority(c) < s.priority(a)
  }

  ghost predicate Between<K>(s: Scheme<K>, a: K, c: K, b: K) {
    (s.less(a, c) && s.less(c, b)) || (s.less(b, c) && s.less(c, a))
  }

  lemma {:induction false} DistinctPrioritiesSeparate<K(!new), H>(s: Scheme<K>, m: map<K, H>)
    requires TotalOrder(s)
    requires forall a, b :: a in m && b in m && s.priority(a) == s.priority(b) ==> a == b
    ensures Separated(s, m)
  {
  }

  // ------------------------------------------------- the reference treap of a map

  ghost function Below<K(!new), H>(s: Scheme<K>, m: map<K, H>, key: K): map<K, H> {
    map k | k in m && s.less(k, key) :: m[k]
  }

  ghost function Above<K(!new), H>(s: Scheme<K>, m: map<K, H>, key: K): map<K, H> {
    map k | k in m && s.less(key, k) :: m[k]
  }

  ghost predicate IsLightest<K(!new), H>(s: Scheme<K>, m: map<K, H>, key: K) {
    key in m && NoneLighter(s, m, s.priority(key))
  }

  lemma {:induction false} LightestExists<K(!new), H>(s: Scheme<K>, m: map<K, H>)
    requires m != map[]
    ensures exists k :: IsLightest(s, m, k)
    decreases |m|
  {
    var k :| k in m;
    var rest := m - {k};
    if rest == map[] {
      assert forall x :: x in m ==> x == k || x in rest;
      assert IsLightest(s, m, k);
    } else {
      LightestExists(s, rest);
      var l :| IsLightest(s, rest, l);
      assert forall x :: x in m ==> x == k || x in rest;
      assert IsLightest(s, m, if s.priority(k) < s.priority(l) then k else l);
    }
  }

  ghost function LightestKey<K(!new), H>(s: Scheme<K>, m: map<K, H>): (key: K)
    requires m != map[]
    ensures IsLightest(s, m, key)
  {
    LightestExists(s, m);
    var k :| IsLightest(s, m, k);
    k
  }

  /** The tree rebuilt from a dictionary alone: its lightest key on top, the
      smaller and the greater keys on either side. */
  ghost function Canonical<K(!new), H>(s: Scheme<K>, m: map<K, H>): Tree<K, H>
    requires TotalOrder(s)
    decreases |m|
  {
    if m == map[] then Empty else
      var k := LightestKey(s, m);
      PartsRejoin(s, m, k);
      Node(Canonical(s, Below(s, m, k)), k, m[k], Canonical(s, Above(s, m, k)))
  }

  lemma {:induction false} PartsTogether<K(!new), H>(s: Scheme<K>, m: map<K, H>, key: K)
    requires TotalOrder(s) && key in m
    ensures m == Join(Below(s, m, key), key, m[key], Above(s, m, key))
  {
    var joined := Join(Below(s, m, key), key, m[key], Above(s, m, key));
    forall k ensures k in joined <==> k in m {
      assert k == key || s.less(k, key) || s.less(key, k);
    }
  }

  lemma {:induction false} PartsRejoin<K(!new), H>(s: Scheme<K>, m: map<K, H>, key: K)
    requires TotalOrder(s) && key in m
    ensures m == Join(Below(s, m, key), key, m[key], Above(s, m, key))
    ensures |Below(s, m, key)| < |m| && |Above(s, m, key)| < |m|
  {
    PartsTogether(s, m, key);
    PartSmaller(m, Below(s, m, key), key);
    PartSmaller(m, Above(s, m, key), key);
  }

  lemma {:induction false} PartSmaller<K, H>(m: map<K, H>, part: map<K, H>, key: K)
    requires key in m && part.Keys <= m.Keys - {key}
    ensures |part| < |m|
  {
    SubsetSize(part.Keys, m.Keys - {key});
    assert |part.Keys| < |m.Keys|;
  }

  lemma {:induction false} CanonicalCorrect<K(!new), H>(s: Scheme<K>, m: map<K, H>)
    requires TotalOrder(s)
    ensures Valid(s, Canonical(s, m)) && Contents(Canonical(s, m)) == m
    decreases |m|
  {
    if m != map[] {
      var k := LightestKey(s, m);
      PartsRejoin(s, m, k);
      CanonicalCorrect(s, Below(s, m, k));
      CanonicalCorrect(s, Above(s, m, k));
    }
  }

  // ---------------------------------------------------------------- uniqueness

  lemma {:induction false} JoinSplits<K(!new), H>(s: Scheme<K>, t: Tree<K, H>)
    requires TotalOrder(s) && t.Node? && Ordered(s, t)
    ensures Contents(t.left) == Below(s, Contents(t), t.key)
    ensures Contents(t.right) == Above(s, Contents(t), t.key)
    ensures Contents(t)[t.key] == t.leaf
  {
  }

  lemma {:induction false} SeparatedParts<K(!new), H>(s: Scheme<K>, m: map<K, H>, key: K)
    requires TotalOrder(s) && Separated(s, m)
    ensures Separated(s, Below(s, m, key)) && Separated(s, Above(s, m, key))
  {
    forall a, b | a in Below(s, m, key) && b in Below(s, m, key) && s.less(a, b) && s.priority(a) == s.priority(b)
      ensures exists c :: c in Below(s, m, key) && Between(s, a, c, b) && s.priority(c) < s.priority(a)
    {
      var c :| c in m && Between(s, a, c, b) && s.priority(c) < s.priority(a);
      assert c in Below(s, m, key);
    }
    forall a, b | a in Above(s, m, key) && b in Above(s, m, key) && s.less(a, b) && s.priority(a) == s.priority(b)
      ensures exists c :: c in Above(s, m, key) && Between(s, a, c, b) && s.priority(c) < s.priority(a)
    {
      var c :| c in m && Between(s, a, c, b) && s.priority(c) < s.priority(a);
      assert c in Above(s, m, key);
    }
  }

  lemma {:induction false} TreapUnique<K(!new), H>(s: Scheme<K>, t: Tree<K, H>, u: Tree<K, H>)
    requires TotalOrder(s) && Valid(s, t) && Valid(s, u)
    requires Contents(t) == Contents(u) && Separated(s, Contents(t))
    ensures t == u
  {
    if u.Node? {
      assert u.key in Contents(u);
    }
    if t.Node? {
      assert t.key in Contents(t);
      HeapedBound(s, t);
      assert u.Node?;
      HeapedBound(s, u);
      assert t.key == u.key;
      JoinSplits(s, t);
      JoinSplits(s, u);
      SeparatedParts(s, Contents(t), t.key);
      TreapUnique(s, t.left, u.left);
      TreapUnique(s, t.right, u.right);
    }
  }

  // -------------------------------------------------------- whole edit histories

  datatype Edit<K, H> = Put(key: K, leaf: H) | Drop(key: K)

  function EditTree<K(==), H>(s: Scheme<K>, t: Tree<K, H>, e: Edit<K, H>): Tree<K, H> {
    match e
    case Put(key, leaf) => Insert(s, t, key, leaf)
    case Drop(key) => Delete(s, t, key)
  }

  function EditMap<K(==), H>(m: map<K, H>, e: Edit<K, H>): map<K, H> {
    match e
    case Put(key, leaf) => m[key := leaf]
    case Drop(key) => m - {key}
  }

  function RunTree<K(==), H>(s: Scheme<K>, t: Tree<K, H>, edits: seq<Edit<K, H>>): Tree<K, H>
    decreases |edits|
  {
    if edits == [] then t else RunTree(s, EditTree(s, t, edits[0]), edits[1..])
  }

  function RunMap<K(==), H>(m: map<K, H>, edits: seq<Edit<K, H>>): map<K, H>
    decreases |edits|
  {
    if edits == [] then m else RunMap(EditMap(m, edits[0]), edits[1..])
  }

  lemma {:induction false} RunCorrect<K(!new), H>(s: Scheme<K>, t: Tree<K, H>, edits: seq<Edit<K, H>>)
    requires TotalOrder(s) && Valid(s, t)
    ensures Valid(s, RunTree(s, t, edits))
    ensures Contents(RunTree(s, t, edits)) == RunMap(Contents(t), edits)
    decreases |edits|
  {
    if edits != [] {
      match edits[0] {
        case Put(key, leaf) => InsertCorrect(s, t, key, leaf);
        case Drop(key) => DeleteCorrect(s, t, key);
      }
      RunCorrect(s, EditTree(s, t, edits[0]), edits[1..]);
    }
  }

  /** Whatever the order of inserts, updates and deletes, the tree is the one
      rebuilt from the final dictionary. */
  lemma {:induction false} HistoryIndependence<K(!new), H>(s: Scheme<K>, edits: seq<Edit<K, H>>)
    requires TotalOrder(s) && Separated(s, RunMap(map[], edits))
    ensures RunTree(s, Empty, edits) == Canonical(s, RunMap(map[], edits))
  {
    RunCorrect(s, Empty, edits);
    CanonicalCorrect(s, RunMap(map[], edits));
    TreapUnique(s, RunTree(s, Empty, edits), Canonical(s, RunMap(map[], edits)));
  }

  // ------------------------------------------- ties that do let history show

  /** Searching the tree for `y` meets `x` on the way. */
  predicate Over<K(==), H>(s: Scheme<K>, t: Tree<K, H>, x: K, y: K) {
    t.Node? && (t.key == x || (t.key != y && Over(s, if s.less(y, t.key) then t.left else t.right, x, y)))
  }

  lemma {:induction false} OverIsInside<K(!new), H>(s: Scheme<K>, t: Tree<K, H>, x: K, y: K)
    requires Over(s, t, x, y)
    ensures x in Contents(t)
  {
    if t.key != x {
      OverIsInside(s, if s.less(y, t.key) then t.left else t.right, x, y);
    }
  }

  lemma {:induction false} OverAntisymmetric<K(!new), H>(s: Scheme<K>, t: Tree<K, H>, x: K, y: K)
    requires TotalOrder(s) && Ordered(s, t) && x != y && Over(s, t, x, y)
    ensures !Over(s, t, y, x)
  {
    if t.key != x && Over(s, t, y, x) {
      var towardsY := if s.less(y, t.key) then t.left else t.right;
      OverIsInside(s, towardsY, x, y);
      OverAntisymmetric(s, towardsY, x, y);
    }
  }

  /** Inserting another key never puts `b` above `a`, unless that key lies between
      the two and is lighter than `a`. */
  lemma {:induction false} InsertKeepsOver<K(!new), H>(s: Scheme<K>, t: Tree<K, H>, key: K, leaf: H, a: K, b: K)
    requires TotalOrder(s) && Valid(s, t) && Over(s, t, a, b) && key != a && key != b && a != b
    requires Between(s, a, key, b) ==> s.priority(a) <= s.priority(key)
    ensures Over(s, Insert(s, t, key, leaf), a, b)
  {
    if key == t.key {
    } else if s.less(key, t.key) {
      InsertCorrect(s, t.left, key, leaf);
      var l := Insert(s, t.left, key, leaf);
      assert l.key in Contents(l);
      if t.key != a && s.less(b, t.key) {
        InsertKeepsOver(s, t.left, key, leaf, a, b);
      }
    } else {
      InsertCorrect(s, t.right, key, leaf);
      var r := Insert(s, t.right, key, leaf);
      assert r.key in Contents(r);
      if t.key != a && !s.less(b, t.key) {
        InsertKeepsOver(s, t.right, key, leaf, a, b);
      }
    }
  }

  ghost predicate Undisturbed<K(!new), H>(s: Scheme<K>, m: map<K, H>, a: K, b: K) {
    forall k :: k in m ==> k != a && k != b && (Between(s, a, k, b) ==> s.priority(a) <= s.priority(k))
  }

  /** Puts every entry of a dictionary, in some order. */
  ghost function Puts<K(!new), H>(m: map<K, H>): seq<Edit<K, H>>
    decreases |m|
  {
    if m == map[] then [] else
      var k :| k in m;
      PartSmaller(m, m - {k}, k);
      [Put(k, m[k])] + Puts(m - {k})
  }

  lemma {:induction false} PutsFirst<K(!new), H>(m: map<K, H>) returns (k: K)
    requires m != map[]
    ensures k in m && |m - {k}| < |m|
    ensures Puts(m) == [Put(k, m[k])] + Puts(m - {k})
    ensures Puts(m)[0] == Put(k, m[k]) && Puts(m)[1..] == Puts(m - {k})
  {
    k := Puts(m)[0].key;
    PartSmaller(m, m - {k}, k);
  }

  lemma {:induction false} PutThenRest<K, H>(m0: map<K, H>, m: map<K, H>, k: K)
    requires k in m
    ensures m0[k := m[k]] + (m - {k}) == m0 + m
  {
  }

  lemma {:induction false} PutsFill<K(!new), H>(m0: map<K, H>, m: map<K, H>)
    ensures RunMap(m0, Puts(m)) == m0 + m
    decreases |m|
  {
    if m == map[] {
      assert m0 + m == m0;
    } else {
      var k := PutsFirst(m);
      PutsFill(m0[k := m[k]], m - {k});
      PutThenRest(m0, m, k);
    }
  }

  lemma {:induction false} PutsKeepOver<K(!new), H>(s: Scheme<K>, t: Tree<K, H>, m: map<K, H>, a: K, b: K)
    requires TotalOrder(s) && a != b && Undisturbed(s, m, a, b)
    requires Valid(s, t) && Over(s, t, a, b)
    ensures Over(s, RunTree(s, t, Puts(m)), a, b)
    decreases |m|
  {
    if m != map[] {
      var k := PutsFirst(m);
      InsertKeepsOver(s, t, k, m[k], a, b);
      InsertCorrect(s, t, k, m[k]);
      PutsKeepOver(s, Insert(s, t, k, m[k]), m - {k}, a, b);
    }
  }

  /** A history that ends in `m` and puts `a` on top of `b`. */
  lemma {:induction false} BuildOver<K(!new), H>(
      s: Scheme<K>, m: map<K, H>, a: K, b: K) returns (edits: seq<Edit<K, H>>)
    requires TotalOrder(s) && a in m && b in m && a != b && s.priority(a) == s.priority(b)
    requires Undisturbed(s, m - {a, b}, a, b)
    ensures RunMap(map[], edits) == m
    ensures Over(s, RunTree(s, Empty, edits), a, b)
  {
    var t := Insert(s, Insert(s, Empty, a, m[a]), b, m[b]);
    InsertCorrect(s, Empty, a, m[a]);
    InsertCorrect(s, Insert(s, Empty, a, m[a]), b, m[b]);
    assert Over(s, t, a, b);
    PutsKeepOver(s, t, m - {a, b}, a, b);
    edits := [Put(a, m[a]), Put(b, m[b])] + Puts(m - {a, b});
    assert edits[1..][1..] == Puts(m - {a, b});
    PutsFill(map[a := m[a], b := m[b]], m - {a, b});
    assert m == map[a := m[a], b := m[b]] + (m - {a, b});
    assert RunTree(s, Empty, edits) == RunTree(s, t, edits[1..][1..]);
    assert RunMap(map[], edits) == RunMap(map[a := m[a], b := m[b]], edits[1..][1..]);
  }

  /** The converse: any other dictionary is reached by two histories that leave
      different trees behind. */
  lemma {:induction false} TiesRevealHistory<K(!new), H>(
      s: Scheme<K>, m: map<K, H>) returns (one: seq<Edit<K, H>>, two: seq<Edit<K, H>>)
    requires TotalOrder(s) && !Separated(s, m)
    ensures RunMap(map[], one) == m && RunMap(map[], two) == m
    ensures RunTree(s, Empty, one) != RunTree(s, Empty, two)
  {
    var a, b :| a in m && b in m && s.less(a, b) && s.priority(a) == s.priority(b)
      && forall c :: c in m && Between(s, a, c, b) ==> s.priority(a) <= s.priority(c);
    one := BuildOver(s, m, a, b);
    two := BuildOver(s, m, b, a);
    RunCorrect(s, Empty, one);
    OverAntisymmetric(s, RunTree(s, Empty, one), a, b);
  }
}
