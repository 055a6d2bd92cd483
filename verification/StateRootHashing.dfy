/** The byte layouts the state root hashes, and what equal roots say about two states. */
module StateRootHashing {
  import opened Basics
  import KeyOrder
  import opened Treap
  import opened History
  import opened TreapNodes
  import opened RootCache

  /** The functions the layouts are built on: SHA-256, UTF-8 and the JSON encoding
      of a value (`None` when it raises). */
  datatype Hashing<!V> = Hashing(sha256: Bytes -> Bytes, utf8: string -> Bytes, json: V -> Option<Bytes>)

  const DIGEST_SIZE := 32
  const LENGTH_LIMIT := 0x1_0000_0000_0000_0000

  function Ascii(s: string): Bytes {
    seq(|s|, i requires 0 <= i < |s| => if s[i] < 128 as char then s[i] as int as byte else 0)
  }

  const EMPTY_PREIMAGE: Bytes := Ascii("xian-state-root-v2:empty")
  const LEAF_PREFIX: Bytes := Ascii("xian-state-root-v2:leaf:")
  const NODE_PREFIX: Bytes := Ascii("xian-state-root-v2:node:")
  const PRIORITY_PREFIX: Bytes := Ascii("xian-state-root-v2:priority:")

  // ------------------------------------------------------------- big-endian numbers

  function ToBigEndian(n: nat, width: nat): (b: Bytes)
    ensures |b| == width
  {
    if width == 0 then [] else ToBigEndian(n / 256, width - 1) + [(n % 256) as byte]
  }

  function FromBigEndian(b: Bytes): nat {
    if b == [] then 0 else FromBigEndian(b[..|b| - 1]) * 256 + b[|b| - 1] as nat
  }

  function Power256(width: nat): nat {
    if width == 0 then 1 else 256 * Power256(width - 1)
  }

  lemma {:induction false} BigEndianRoundTrip(n: nat, width: nat)
    requires n < Power256(width)
    ensures FromBigEndian(ToBigEndian(n, width)) == n
  {
    if width != 0 {
      BigEndianRoundTrip(n / 256, width - 1);
      assert ToBigEndian(n, width)[..width - 1] == ToBigEndian(n / 256, width - 1);
    }
  }

  lemma {:induction false} BigEndianInjective(a: Bytes, b: Bytes)
    requires |a| == |b| && FromBigEndian(a) == FromBigEndian(b)
    ensures a == b
  {
    if a != [] {
      BigEndianInjective(a[..|a| - 1], b[..|b| - 1]);
      assert a == a[..|a| - 1] + [a[|a| - 1]] && b == b[..|b| - 1] + [b[|b| - 1]];
    }
  }

  // --------------------------------------------------------------------- the layouts

  function LengthPrefixed(payload: Bytes): Bytes {
    ToBigEndian(|payload|, 8) + payload
  }

  function LeafPreimage(key: Bytes, value: Bytes): Bytes {
    LEAF_PREFIX + LengthPrefixed(key) + LengthPrefixed(value)
  }

  function NodePreimage(left: Bytes, leaf: Bytes, right: Bytes): Bytes {
    NODE_PREFIX + left + leaf + right
  }

  function PriorityPreimage<V>(h: Hashing<V>, key: string): Bytes {
    PRIORITY_PREFIX + h.utf8(key)
  }

  function KeyPriority<V>(h: Hashing<V>, key: string): int {
    FromBigEndian(h.sha256(PriorityPreimage(h, key)))
  }

  /** The tree algebra of the node: code-point order, hashed priorities, hashed nodes. */
  function StateAlgebra<V>(h: Hashing<V>): Algebra<string, Bytes> {
    Algebra(
      Scheme(KeyOrder.Less, (key: string) => KeyPriority(h, key)),
      h.sha256(EMPTY_PREIMAGE),
      (left: Bytes, leaf: Bytes, right: Bytes) => h.sha256(NodePreimage(left, leaf, right)))
  }

  predicate StartsWith(s: string, prefix: string) {
    |prefix| <= |s| && s[..|prefix|] == prefix
  }

  predicate IsConsensusKey(key: string) {
    key == "__execution_policy" || !StartsWith(key, "__") || StartsWith(key, "__n.")
  }

  /** Raises when the JSON encoding does, or when a length does not fit in eight bytes. */
  function LeafHash<V>(h: Hashing<V>, key: string, value: V): Option<Bytes> {
    var encoded := h.json(value);
    if encoded.None? || |h.utf8(key)| >= LENGTH_LIMIT || |encoded.value| >= LENGTH_LIMIT then None
    else Some(h.sha256(LeafPreimage(h.utf8(key), encoded.value)))
  }

  function StateEnv<V>(h: Hashing<V>): Env<string, V, Bytes> {
    Env(StateAlgebra(h), IsConsensusKey, (key: string, value: V) => LeafHash(h, key, value))
  }

  lemma {:induction false} StateOrderTotal<V>(h: Hashing<V>)
    ensures TotalOrder(StateAlgebra(h).scheme)
  {
    forall a: string, b: string, c: string
      ensures !KeyOrder.Less(a, a) && (a == b || KeyOrder.Less(a, b) || KeyOrder.Less(b, a))
      ensures KeyOrder.Less(a, b) && KeyOrder.Less(b, c) ==> KeyOrder.Less(a, c)
    {
      KeyOrder.LessIrreflexive(a);
      KeyOrder.LessTotal(a, b);
      if KeyOrder.Less(a, b) && KeyOrder.Less(b, c) {
        KeyOrder.LessTransitive(a, b, c);
      }
    }
  }

  lemma {:induction false} LengthPrefixedInjective(a: Bytes, s: Bytes, b: Bytes, t: Bytes)
    requires |a| < LENGTH_LIMIT && |b| < LENGTH_LIMIT
    requires LengthPrefixed(a) + s == LengthPrefixed(b) + t
    ensures a == b && s == t
  {
    var x, y := LengthPrefixed(a) + s, LengthPrefixed(b) + t;
    assert Power256(8) == LENGTH_LIMIT by {
      assert Power256(4) == 0x1_0000_0000;
      assert Power256(8) == 256 * (256 * (256 * (256 * Power256(4))));
    }
    assert x[..8] == ToBigEndian(|a|, 8) && y[..8] == ToBigEndian(|b|, 8);
    BigEndianRoundTrip(|a|, 8);
    BigEndianRoundTrip(|b|, 8);
    assert a == x[8..8 + |a|] && b == y[8..8 + |b|];
    assert s == x[8 + |a|..] && t == y[8 + |b|..];
  }

  lemma {:induction false} LeafPreimageInjective(k: Bytes, v: Bytes, l: Bytes, w: Bytes)
    requires |k| < LENGTH_LIMIT && |v| < LENGTH_LIMIT && |l| < LENGTH_LIMIT && |w| < LENGTH_LIMIT
    requires LeafPreimage(k, v) == LeafPreimage(l, w)
    ensures k == l && v == w
  {
    var x, y := LengthPrefixed(k) + LengthPrefixed(v), LengthPrefixed(l) + LengthPrefixed(w);
    assert LeafPreimage(k, v) == LEAF_PREFIX + x && LeafPreimage(l, w) == LEAF_PREFIX + y;
    assert x == (LEAF_PREFIX + x)[|LEAF_PREFIX|..] && y == (LEAF_PREFIX + y)[|LEAF_PREFIX|..];
    LengthPrefixedInjective(k, LengthPrefixed(v), l, LengthPrefixed(w));
    assert LengthPrefixed(v) + [] == LengthPrefixed(w) + [];
    LengthPrefixedInjective(v, [], w, []);
  }

  lemma {:induction false} NodePreimageInjective(a: Bytes, x: Bytes, b: Bytes, c: Bytes, y: Bytes, d: Bytes)
    requires |a| == |x| == |b| == |c| == |y| == |d| == DIGEST_SIZE
    requires NodePreimage(a, x, b) == NodePreimage(c, y, d)
    ensures a == c && x == y && b == d
  {
    var m, n := NodePreimage(a, x, b), NodePreimage(c, y, d);
    var p := |NODE_PREFIX|;
    assert a == m[p..p + 32] && c == n[p..p + 32];
    assert x == m[p + 32..p + 64] && y == n[p + 32..p + 64];
    assert b == m[p + 64..] && d == n[p + 64..];
  }

  lemma {:induction false} NodeIsNotEmpty(a: Bytes, x: Bytes, b: Bytes)
    ensures NodePreimage(a, x, b) != EMPTY_PREIMAGE
  {
    assert NodePreimage(a, x, b)[19] == NODE_PREFIX[19] == 'n' as int as byte;
    assert EMPTY_PREIMAGE[19] == 'e' as int as byte;
  }

  /** What is hashed says by its prefix what it is: no leaf, node, priority or empty tree can
      be taken for another. */
  lemma {:induction false} DomainsSeparate<V>(
      h: Hashing<V>, k: Bytes, v: Bytes, a: Bytes, x: Bytes, b: Bytes, key: string)
    ensures LeafPreimage(k, v) != NodePreimage(a, x, b) && LeafPreimage(k, v) != PriorityPreimage(h, key)
    ensures NodePreimage(a, x, b) != PriorityPreimage(h, key)
    ensures EMPTY_PREIMAGE != LeafPreimage(k, v) && EMPTY_PREIMAGE != NodePreimage(a, x, b)
    ensures EMPTY_PREIMAGE != PriorityPreimage(h, key)
  {
    assert LeafPreimage(k, v)[19] == LEAF_PREFIX[19] == 'l' as int as byte;
    assert NodePreimage(a, x, b)[19] == NODE_PREFIX[19] == 'n' as int as byte;
    assert PriorityPreimage(h, key)[19] == PRIORITY_PREFIX[19] == 'p' as int as byte;
    assert EMPTY_PREIMAGE[19] == 'e' as int as byte;
  }

  // ---------------------------------------------------------------- equal roots

  /** No two of these byte strings share a digest. */
  ghost predicate CollisionFree<V>(h: Hashing<V>, hashed: set<Bytes>) {
    forall x, y :: x in hashed && y in hashed && h.sha256(x) == h.sha256(y) ==> x == y
  }

  /** Digests are 32 bytes long and UTF-8 loses nothing. */
  ghost predicate Faithful<V>(h: Hashing<V>) {
    && (forall x :: |h.sha256(x)| == DIGEST_SIZE)
    && (forall a, b :: h.utf8(a) == h.utf8(b) ==> a == b)
  }

  predicate Fits<V>(h: Hashing<V>, key: string, value: Bytes) {
    |h.utf8(key)| < LENGTH_LIMIT && |value| < LENGTH_LIMIT
  }

  /** The leaf hashes of a state given as encoded values. */
  function HashedState<V>(h: Hashing<V>, state: map<string, Bytes>): map<string, Bytes> {
    map key | key in state :: h.sha256(LeafPreimage(h.utf8(key), state[key]))
  }

  /** Every leaf of the tree is the hash of its key's entry in the state. */
  ghost predicate Stores<V>(h: Hashing<V>, t: Tree<string, Bytes>, state: map<string, Bytes>) {
    t.Node? ==>
      && t.key in state && Fits(h, t.key, state[t.key])
      && t.leaf == h.sha256(LeafPreimage(h.utf8(t.key), state[t.key]))
      && Stores(h, t.left, state) && Stores(h, t.right, state)
  }

  /** Everything that is hashed on the way to the root. */
  ghost function Preimages<V>(h: Hashing<V>, t: Tree<string, Bytes>, state: map<string, Bytes>): set<Bytes>
    requires Stores(h, t, state)
  {
    if t.Empty? then {EMPTY_PREIMAGE} else
      {NodePreimage(RootHash(StateAlgebra(h), t.left), t.leaf, RootHash(StateAlgebra(h), t.right))}
      + {LeafPreimage(h.utf8(t.key), state[t.key])}
      + Preimages(h, t.left, state) + Preimages(h, t.right, state)
  }

  ghost function Entries<V>(h: Hashing<V>, t: Tree<string, Bytes>, state: map<string, Bytes>): seq<(string, Bytes)>
    requires Stores(h, t, state)
  {
    if t.Empty? then [] else Entries(h, t.left, state) + [(t.key, state[t.key])] + Entries(h, t.right, state)
  }

  lemma {:induction false} RootWidth<V>(h: Hashing<V>, t: Tree<string, Bytes>)
    requires Faithful(h)
    ensures |RootHash(StateAlgebra(h), t)| == DIGEST_SIZE
  {
    if t.Node? {
      var x := NodePreimage(RootHash(StateAlgebra(h), t.left), t.leaf, RootHash(StateAlgebra(h), t.right));
      assert RootHash(StateAlgebra(h), t) == h.sha256(x);
    }
  }

  lemma {:induction false} EqualRootsEqualEntries<V>(
      h: Hashing<V>, t: Tree<string, Bytes>, m: map<string, Bytes>, u: Tree<string, Bytes>, n: map<string, Bytes>)
    requires Faithful(h) && Stores(h, t, m) && Stores(h, u, n)
    requires CollisionFree(h, Preimages(h, t, m) + Preimages(h, u, n))
    requires RootHash(StateAlgebra(h), t) == RootHash(StateAlgebra(h), u)
    ensures Entries(h, t, m) == Entries(h, u, n)
  {
    var a := StateAlgebra(h);
    if t.Node? && u.Node? {
      RootWidth(h, t.left);
      RootWidth(h, t.right);
      RootWidth(h, u.left);
      RootWidth(h, u.right);
      var x := NodePreimage(RootHash(a, t.left), t.leaf, RootHash(a, t.right));
      var y := NodePreimage(RootHash(a, u.left), u.leaf, RootHash(a, u.right));
      assert h.sha256(x) == h.sha256(y);
      assert x in Preimages(h, t, m) && y in Preimages(h, u, n);
      NodePreimageInjective(RootHash(a, t.left), t.leaf, RootHash(a, t.right),
                            RootHash(a, u.left), u.leaf, RootHash(a, u.right));
      var k, l := LeafPreimage(h.utf8(t.key), m[t.key]), LeafPreimage(h.utf8(u.key), n[u.key]);
      assert k in Preimages(h, t, m) && l in Preimages(h, u, n);
      LeafPreimageInjective(h.utf8(t.key), m[t.key], h.utf8(u.key), n[u.key]);
      EqualRootsEqualEntries(h, t.left, m, u.left, n);
      EqualRootsEqualEntries(h, t.right, m, u.right, n);
    } else if t.Node? {
      NodeIsNotEmpty(RootHash(a, t.left), t.leaf, RootHash(a, t.right));
    } else if u.Node? {
      NodeIsNotEmpty(RootHash(a, u.left), u.leaf, RootHash(a, u.right));
    }
  }

  lemma {:induction false} StoresContents<V>(h: Hashing<V>, t: Tree<string, Bytes>, state: map<string, Bytes>)
    requires Ordered(StateAlgebra(h).scheme, t)
    requires forall k :: k in state ==> Fits(h, k, state[k])
    requires forall k :: k in Contents(t) ==> k in state && Contents(t)[k] == HashedState(h, state)[k]
    ensures Stores(h, t, state)
  {
    if t.Node? {
      StateOrderTotal(h);
      JoinSplits(StateAlgebra(h).scheme, t);
      StoresContents(h, t.left, state);
      StoresContents(h, t.right, state);
    }
  }

  lemma {:induction false} EntriesCover<V>(
      h: Hashing<V>, t: Tree<string, Bytes>, state: map<string, Bytes>, key: string)
    requires Stores(h, t, state)
    ensures key in Contents(t) <==> exists v :: (key, v) in Entries(h, t, state)
    ensures forall v :: (key, v) in Entries(h, t, state) ==> key in state && v == state[key]
  {
    if t.Node? {
      EntriesCover(h, t.left, state, key);
      EntriesCover(h, t.right, state, key);
    }
  }

  /** The cache holds exactly this state of encoded values. */
  ghost predicate Holds<V>(h: Hashing<V>, c: Cache<string, Bytes>, state: map<string, Bytes>) {
    && Sound(StateEnv(h), c)
    && c.leaves == HashedState(h, state)
    && forall k :: k in state ==> Fits(h, k, state[k])
  }

  /** Everything hashed on the way to a cache's root. */
  ghost function CachePreimages<V>(h: Hashing<V>, c: Cache<string, Bytes>, state: map<string, Bytes>): set<Bytes>
    requires Holds(h, c, state)
  {
    StoresContents(h, c.tree, state);
    Preimages(h, c.tree, state)
  }

  lemma {:induction false} EntriesWithin<V>(
      h: Hashing<V>, t: Tree<string, Bytes>, m: map<string, Bytes>, u: Tree<string, Bytes>, n: map<string, Bytes>)
    requires Stores(h, t, m) && Stores(h, u, n) && Entries(h, t, m) == Entries(h, u, n)
    requires Contents(t).Keys == m.Keys
    ensures forall k :: k in m ==> k in n && m[k] == n[k]
  {
    forall k | k in m ensures k in n && m[k] == n[k] {
      assert k in Contents(t).Keys;
      EntriesCover(h, t, m, k);
      EntriesCover(h, u, n, k);
      var v :| (k, v) in Entries(h, t, m);
    }
  }

  lemma {:induction false} EqualRootsEqualStored<V>(
      h: Hashing<V>, t: Tree<string, Bytes>, m: map<string, Bytes>, u: Tree<string, Bytes>, n: map<string, Bytes>)
    requires Faithful(h) && Stores(h, t, m) && Stores(h, u, n)
    requires Contents(t).Keys == m.Keys && Contents(u).Keys == n.Keys
    requires CollisionFree(h, Preimages(h, t, m) + Preimages(h, u, n))
    requires RootHash(StateAlgebra(h), t) == RootHash(StateAlgebra(h), u)
    ensures m == n
  {
    EqualRootsEqualEntries(h, t, m, u, n);
    EntriesWithin(h, t, m, u, n);
    EntriesWithin(h, u, n, t, m);
  }

  lemma {:induction false} HoldsStores<V>(h: Hashing<V>, c: Cache<string, Bytes>, state: map<string, Bytes>)
    requires Holds(h, c, state)
    ensures Stores(h, c.tree, state) && Contents(c.tree).Keys == state.Keys
    ensures CachePreimages(h, c, state) == Preimages(h, c.tree, state)
  {
    StoresContents(h, c.tree, state);
    assert c.leaves.Keys == state.Keys;
  }

  /** Two caches with the same root hold the same keys with the same encoded
      values, unless a collision occurs among what they hashed. */
  lemma {:induction false} EqualRootsEqualStates<V>(
      h: Hashing<V>, c: Cache<string, Bytes>, m: map<string, Bytes>, d: Cache<string, Bytes>, n: map<string, Bytes>)
    requires Faithful(h) && Holds(h, c, m) && Holds(h, d, n)
    requires CollisionFree(h, CachePreimages(h, c, m) + CachePreimages(h, d, n))
    requires RootHash(StateAlgebra(h), c.tree) == RootHash(StateAlgebra(h), d.tree)
    ensures m == n
  {
    HoldsStores(h, c, m);
    HoldsStores(h, d, n);
    EqualRootsEqualStored(h, c.tree, m, d.tree, n);
  }

  /** Collision-free priority hashing makes every root the canonical one. */
  lemma {:induction false} CollisionFreePriorities<V, H>(h: Hashing<V>, leaves: map<string, H>)
    requires Faithful(h)
    requires CollisionFree(h, set k | k in leaves :: PriorityPreimage(h, k))
    ensures Separated(StateAlgebra(h).scheme, leaves)
  {
    StateOrderTotal(h);
    forall a, b | a in leaves && b in leaves && KeyPriority(h, a) == KeyPriority(h, b) ensures a == b {
      BigEndianInjective(h.sha256(PriorityPreimage(h, a)), h.sha256(PriorityPreimage(h, b)));
      var x, y := PriorityPreimage(h, a), PriorityPreimage(h, b);
      assert x == y;
      assert h.utf8(a) == x[|PRIORITY_PREFIX|..] && h.utf8(b) == y[|PRIORITY_PREFIX|..];
    }
    DistinctPrioritiesSeparate(StateAlgebra(h).scheme, leaves);
  }
}
