/** The staged root cache, as a value and as the object the node holds.

    The value-level functions say what each call does to the tree, to the leaf
    dictionary and to the undo list; the class is proved to do exactly that in
    place; the lemmas prove what every run of calls keeps. */
module RootCache {
  import opened Basics
  import opened Treap
  import opened History
  import opened TreapNodes

  /** What the cache is built over: the hash algebra, the test for keys that take
      part in consensus, and leaf hashing (`None` when encoding a value raises). */
  datatype Env<!K, !V, !H> = Env(algebra: Algebra<K, H>, isConsensus: K -> bool, hashLeaf: (K, V) -> Option<H>)

  /** One dictionary entry handed to the cache.  A key that is not a string is
      `None`; a value that is `None` deletes. */
  datatype Item<K, V> = Item(key: Option<K>, value: Option<V>)

  datatype Cache<K, H> = Cache(tree: Tree<K, H>, leaves: map<K, H>, staged: seq<(K, Option<H>)>)

  function Assign<K, H>(m: map<K, H>, key: K, leaf: Option<H>): map<K, H> {
    if leaf.None? then m - {key} else m[key := leaf.value]
  }

  // ------------------------------------------------------- the calls, on values

  function SetLeaf<K(==), V, H>(env: Env<K, V, H>, c: Cache<K, H>, key: K, leaf: Option<H>): Cache<K, H> {
    var tree := if leaf.None? then Delete(env.algebra.scheme, c.tree, key)
                else Insert(env.algebra.scheme, c.tree, key, leaf.value);
    c.(tree := tree, leaves := Assign(c.leaves, key, leaf))
  }

  function Rollback<K(==), V, H>(env: Env<K, V, H>, c: Cache<K, H>): Cache<K, H>
    decreases |c.staged|
  {
    if c.staged == [] then c else
      var last := c.staged[|c.staged| - 1];
      Rollback(env, SetLeaf(env, c, last.0, last.1).(staged := c.staged[..|c.staged| - 1]))
  }

  /** Handling an entry raises: its key is no string, or its value cannot be encoded. */
  predicate Raises<K, V, H>(env: Env<K, V, H>, item: Item<K, V>) {
    item.key.None? ||
    (env.isConsensus(item.key.value) && item.value.Some? && env.hashLeaf(item.key.value, item.value.value).None?)
  }

  function NewLeaf<K, V, H>(env: Env<K, V, H>, item: Item<K, V>): Option<H>
    requires item.key.Some?
  {
    if item.value.None? then None else env.hashLeaf(item.key.value, item.value.value)
  }

  function StageOne<K(==), V, H(==)>(env: Env<K, V, H>, c: Cache<K, H>, item: Item<K, V>): Cache<K, H>
    requires !Raises(env, item)
  {
    var key := item.key.value;
    if !env.isConsensus(key) || Lookup(c.leaves, key) == NewLeaf(env, item) then c
    else SetLeaf(env, c.(staged := c.staged + [(key, Lookup(c.leaves, key))]), key, NewLeaf(env, item))
  }

  /** Stages entries up to the first that raises. */
  function StageAll<K(==), V, H(==)>(env: Env<K, V, H>, c: Cache<K, H>, items: seq<Item<K, V>>): (Cache<K, H>, bool)
    decreases |items|
  {
    if items == [] then (c, true)
    else if Raises(env, items[0]) then (c, false)
    else StageAll(env, StageOne(env, c, items[0]), items[1..])
  }

  function Prepare<K(==), V, H(==)>(env: Env<K, V, H>, c: Cache<K, H>, writes: seq<Item<K, V>>): (Cache<K, H>, bool) {
    StageAll(env, Rollback(env, c), writes)
  }

  function Commit<K, H>(c: Cache<K, H>): Cache<K, H> {
    c.(staged := [])
  }

  function EmptyCache<K, H>(): Cache<K, H> {
    Cache(Empty, map[], [])
  }

  /** Rebuilding skips absent values and keys outside consensus, and raises on a repeated key. */
  predicate RebuildRaises<K(==), V, H>(env: Env<K, V, H>, c: Cache<K, H>, item: Item<K, V>) {
    item.key.None? ||
    (item.value.Some? && env.isConsensus(item.key.value) &&
     (item.key.value in c.leaves || env.hashLeaf(item.key.value, item.value.value).None?))
  }

  function LoadOne<K(==), V, H>(env: Env<K, V, H>, c: Cache<K, H>, item: Item<K, V>): Cache<K, H>
    requires !RebuildRaises(env, c, item)
  {
    if item.value.None? || !env.isConsensus(item.key.value) then c
    else SetLeaf(env, c, item.key.value, NewLeaf(env, item))
  }

  function LoadAll<K(==), V, H>(env: Env<K, V, H>, c: Cache<K, H>, items: seq<Item<K, V>>): (Cache<K, H>, bool)
    decreases |items|
  {
    if items == [] then (c, true)
    else if RebuildRaises(env, c, items[0]) then (c, false)
    else LoadAll(env, LoadOne(env, c, items[0]), items[1..])
  }

  // -------------------------------------------------------------------- meaning

  /** The dictionary that undoing the staged changes gives back. */
  function Base<K, H>(leaves: map<K, H>, staged: seq<(K, Option<H>)>): map<K, H>
    decreases |staged|
  {
    if staged == [] then leaves else
      var last := staged[|staged| - 1];
      Base(Assign(leaves, last.0, last.1), staged[..|staged| - 1])
  }

  /** What a dictionary of writes makes of a dictionary of leaves. */
  function Overlay<K(==), V, H>(env: Env<K, V, H>, m: map<K, H>, items: seq<Item<K, V>>): map<K, H>
    requires forall i :: 0 <= i < |items| ==> !Raises(env, items[i])
    decreases |items|
  {
    if items == [] then m
    else if assert !Raises(env, items[0]); !env.isConsensus(items[0].key.value) then Overlay(env, m, items[1..])
    else Overlay(env, Assign(m, items[0].key.value, NewLeaf(env, items[0])), items[1..])
  }

  /** The entries before the first that raises. */
  function Accepted<K, V, H>(env: Env<K, V, H>, items: seq<Item<K, V>>): (r: seq<Item<K, V>>)
    ensures forall i :: 0 <= i < |r| ==> !Raises(env, r[i])
    ensures r <= items
    ensures r == items || Raises(env, items[|r|])
  {
    if items == [] || Raises(env, items[0]) then [] else [items[0]] + Accepted(env, items[1..])
  }

  ghost predicate Sound<K(!new), V, H>(env: Env<K, V, H>, c: Cache<K, H>) {
    && TotalOrder(env.algebra.scheme)
    && Valid(env.algebra.scheme, c.tree)
    && Contents(c.tree) == c.leaves
  }

  /** The root of a leaf dictionary, computed from the dictionary alone. */
  ghost function RootOf<K(!new), V, H>(env: Env<K, V, H>, leaves: map<K, H>): H
    requires TotalOrder(env.algebra.scheme)
  {
    RootHash(env.algebra, Canonical(env.algebra.scheme, leaves))
  }

  lemma {:induction false} SoundRoot<K(!new), V, H>(env: Env<K, V, H>, c: Cache<K, H>)
    requires Sound(env, c) && Separated(env.algebra.scheme, c.leaves)
    ensures RootHash(env.algebra, c.tree) == RootOf(env, c.leaves)
  {
    CanonicalCorrect(env.algebra.scheme, c.leaves);
    TreapUnique(env.algebra.scheme, c.tree, Canonical(env.algebra.scheme, c.leaves));
  }

  lemma {:induction false} SetLeafSound<K(!new), V, H>(env: Env<K, V, H>, c: Cache<K, H>, key: K, leaf: Option<H>)
    requires Sound(env, c)
    ensures Sound(env, SetLeaf(env, c, key, leaf))
  {
    if leaf.None? {
      DeleteCorrect(env.algebra.scheme, c.tree, key);
    } else {
      InsertCorrect(env.algebra.scheme, c.tree, key, leaf.value);
    }
  }

  /** Rolling back leaves the dictionary that was there before staging. */
  lemma {:induction false} RollbackCorrect<K(!new), V, H>(env: Env<K, V, H>, c: Cache<K, H>)
    requires Sound(env, c)
    ensures Sound(env, Rollback(env, c))
    ensures Rollback(env, c).leaves == Base(c.leaves, c.staged) && Rollback(env, c).staged == []
    decreases |c.staged|
  {
    if c.staged != [] {
      var last := c.staged[|c.staged| - 1];
      SetLeafSound(env, c, last.0, last.1);
      RollbackCorrect(env, SetLeaf(env, c, last.0, last.1).(staged := c.staged[..|c.staged| - 1]));
    }
  }

  lemma {:induction false} StageOneCorrect<K(!new), V, H>(env: Env<K, V, H>, c: Cache<K, H>, item: Item<K, V>)
    requires Sound(env, c) && !Raises(env, item)
    ensures
      var d := StageOne(env, c, item);
      && Sound(env, d)
      && Base(d.leaves, d.staged) == Base(c.leaves, c.staged)
      && d.leaves == Overlay(env, c.leaves, [item])
  {
    var key := item.key.value;
    var d := StageOne(env, c, item);
    assert [item][1..] == [];
    if env.isConsensus(key) && Lookup(c.leaves, key) != NewLeaf(env, item) {
      var staged := c.staged + [(key, Lookup(c.leaves, key))];
      SetLeafSound(env, c.(staged := staged), key, NewLeaf(env, item));
      assert staged[..|staged| - 1] == c.staged;
      assert Assign(d.leaves, key, Lookup(c.leaves, key)) == c.leaves;
    }
  }

  lemma {:induction false} OverlayAppend<K(!new), V, H>(
      env: Env<K, V, H>, m: map<K, H>, one: Item<K, V>, rest: seq<Item<K, V>>)
    requires !Raises(env, one) && forall i :: 0 <= i < |rest| ==> !Raises(env, rest[i])
    ensures Overlay(env, m, [one] + rest) == Overlay(env, Overlay(env, m, [one]), rest)
  {
    assert ([one] + rest)[1..] == rest && [one][1..] == [];
  }

  /** Staging never touches the base, and reaches the overlay of the entries it accepted. */
  lemma {:induction false} StageAllCorrect<K(!new), V, H>(env: Env<K, V, H>, c: Cache<K, H>, items: seq<Item<K, V>>)
    requires Sound(env, c)
    ensures
      var (d, ok) := StageAll(env, c, items);
      && Sound(env, d)
      && Base(d.leaves, d.staged) == Base(c.leaves, c.staged)
      && d.leaves == Overlay(env, c.leaves, Accepted(env, items))
      && (ok <==> Accepted(env, items) == items)
    decreases |items|
  {
    if items != [] && !Raises(env, items[0]) {
      StageOneCorrect(env, c, items[0]);
      StageAllCorrect(env, StageOne(env, c, items[0]), items[1..]);
      OverlayAppend(env, c.leaves, items[0], Accepted(env, items[1..]));
      assert items == [items[0]] + items[1..];
    }
  }

  /** Key by key, an overlay is the written value where a consensus key was written
      and the old one elsewhere. */
  lemma {:induction false} OverlayPointwise<K(!new), V, H>(
      env: Env<K, V, H>, m: map<K, H>, items: seq<Item<K, V>>, key: K)
    requires forall i :: 0 <= i < |items| ==> !Raises(env, items[i])
    requires forall i, j :: 0 <= i < j < |items| ==> items[i].key != items[j].key
    ensures forall i :: 0 <= i < |items| && items[i].key == Some(key) && env.isConsensus(key) ==>
      Lookup(Overlay(env, m, items), key) == NewLeaf(env, items[i])
    ensures (!env.isConsensus(key) || forall i :: 0 <= i < |items| ==> items[i].key != Some(key)) ==>
      Lookup(Overlay(env, m, items), key) == Lookup(m, key)
    decreases |items|
  {
    if items != [] {
      var first := items[0].key.value;
      var next := if env.isConsensus(first) then Assign(m, first, NewLeaf(env, items[0])) else m;
      assert forall i :: 0 <= i < |items[1..]| ==> items[1..][i] == items[i + 1];
      OverlayPointwise(env, next, items[1..], key);
    }
  }

  /** Writes are all staged exactly when every key is a string and every value written to a
      consensus key can be encoded. */
  lemma {:induction false} PrepareRaisesExactly<K(!new), V, H>(
      env: Env<K, V, H>, c: Cache<K, H>, writes: seq<Item<K, V>>)
    ensures Prepare(env, c, writes).1 <==> forall i :: 0 <= i < |writes| ==>
      && writes[i].key.Some?
      && (env.isConsensus(writes[i].key.value) && writes[i].value.Some? ==>
            env.hashLeaf(writes[i].key.value, writes[i].value.value).Some?)
  {
    StagesExactly(env, Rollback(env, c), writes);
  }

  lemma {:induction false} StagesExactly<K(!new), V, H>(env: Env<K, V, H>, c: Cache<K, H>, items: seq<Item<K, V>>)
    ensures StageAll(env, c, items).1 <==> forall i :: 0 <= i < |items| ==>
      && items[i].key.Some?
      && (env.isConsensus(items[i].key.value) && items[i].value.Some? ==>
            env.hashLeaf(items[i].key.value, items[i].value.value).Some?)
    decreases |items|
  {
    if items != [] && !Raises(env, items[0]) {
      StagesExactly(env, StageOne(env, c, items[0]), items[1..]);
      assert forall i :: 0 < i < |items| ==> items[i] == items[1..][i - 1];
    }
  }

  // -------------------------------------------------------- rebuilding from scratch

  /** The entry sets the leaf of `key` during a rebuild. */
  predicate Loads<K(==), V, H>(env: Env<K, V, H>, item: Item<K, V>, key: K) {
    item.key == Some(key) && env.isConsensus(key) && item.value.Some?
  }

  lemma {:induction false} LoadAllCorrect<K(!new), V, H>(env: Env<K, V, H>, c: Cache<K, H>, items: seq<Item<K, V>>)
    requires Sound(env, c)
    ensures
      var (d, ok) := LoadAll(env, c, items);
      && Sound(env, d) && d.staged == c.staged
      && (ok ==> forall k :: k in d.leaves <==>
            k in c.leaves || exists i :: 0 <= i < |items| && Loads(env, items[i], k))
      && (ok ==> forall k :: k in c.leaves ==> k in d.leaves && d.leaves[k] == c.leaves[k])
      && (ok ==> forall i, k :: 0 <= i < |items| && Loads(env, items[i], k) ==>
            Lookup(d.leaves, k) == NewLeaf(env, items[i]))
    decreases |items|
  {
    if items != [] && !RebuildRaises(env, c, items[0]) {
      var mid := LoadOne(env, c, items[0]);
      if Loads(env, items[0], items[0].key.value) {
        SetLeafSound(env, c, items[0].key.value, NewLeaf(env, items[0]));
      }
      LoadAllCorrect(env, mid, items[1..]);
      var (d, ok) := LoadAll(env, mid, items[1..]);
      if ok {
        forall k ensures k in d.leaves <==> k in c.leaves || exists i :: 0 <= i < |items| && Loads(env, items[i], k) {
          if i :| 0 <= i < |items[1..]| && Loads(env, items[1..][i], k) {
            assert Loads(env, items[i + 1], k);
          }
          if i :| 0 <= i < |items| && Loads(env, items[i], k) && i != 0 {
            assert Loads(env, items[1..][i - 1], k);
          }
          assert k in mid.leaves <==> k in c.leaves || Loads(env, items[0], k);
        }
        forall i, k | 0 <= i < |items| && Loads(env, items[i], k)
          ensures Lookup(d.leaves, k) == NewLeaf(env, items[i])
        {
          if i != 0 {
            assert Loads(env, items[1..][i - 1], k);
          }
        }
      }
    }
  }

  /** The dictionary holds exactly what the items set. */
  ghost predicate LoadedFrom<K(!new), V, H>(env: Env<K, V, H>, items: seq<Item<K, V>>, m: map<K, H>) {
    && (forall k :: k in m <==> exists i :: 0 <= i < |items| && Loads(env, items[i], k))
    && (forall i, k :: 0 <= i < |items| && Loads(env, items[i], k) ==> Lookup(m, k) == NewLeaf(env, items[i]))
  }

  lemma {:induction false} RebuildLoads<K(!new), V, H>(env: Env<K, V, H>, items: seq<Item<K, V>>)
    requires TotalOrder(env.algebra.scheme) && LoadAll(env, EmptyCache(), items).1
    ensures Sound(env, LoadAll(env, EmptyCache(), items).0)
    ensures LoadedFrom(env, items, LoadAll(env, EmptyCache(), items).0.leaves)
  {
    LoadAllCorrect(env, EmptyCache(), items);
  }

  lemma {:induction false} SameLeaves<K(!new), V, H>(
      env: Env<K, V, H>, one: seq<Item<K, V>>, two: seq<Item<K, V>>, a: map<K, H>, b: map<K, H>)
    requires forall item :: item in one ==> item in two
    requires LoadedFrom(env, one, a) && LoadedFrom(env, two, b)
    ensures forall k :: k in a ==> k in b && a[k] == b[k]
  {
    forall k | k in a ensures k in b && a[k] == b[k] {
      var i :| 0 <= i < |one| && Loads(env, one[i], k);
      assert one[i] in two;
      var j :| 0 <= j < |two| && two[j] == one[i];
      assert Loads(env, two[j], k);
      assert Lookup(a, k) == NewLeaf(env, one[i]) && Lookup(b, k) == NewLeaf(env, two[j]);
    }
  }

  /** A rebuild gives the same dictionary and root whatever the order of its items. */
  lemma {:induction false} RebuildOrderFree<K(!new), V, H>(
      env: Env<K, V, H>, one: seq<Item<K, V>>, two: seq<Item<K, V>>)
    requires TotalOrder(env.algebra.scheme)
    requires forall item :: item in one <==> item in two
    requires LoadAll(env, EmptyCache(), one).1 && LoadAll(env, EmptyCache(), two).1
    ensures LoadAll(env, EmptyCache(), one).0.leaves == LoadAll(env, EmptyCache(), two).0.leaves
    ensures Separated(env.algebra.scheme, LoadAll(env, EmptyCache(), one).0.leaves) ==>
      LoadAll(env, EmptyCache(), one).0.tree == LoadAll(env, EmptyCache(), two).0.tree
  {
    RebuildLoads(env, one);
    RebuildLoads(env, two);
    var a, b := LoadAll(env, EmptyCache(), one).0, LoadAll(env, EmptyCache(), two).0;
    SameLeaves(env, one, two, a.leaves, b.leaves);
    SameLeaves(env, two, one, b.leaves, a.leaves);
    assert a.leaves == b.leaves;
    if Separated(env.algebra.scheme, a.leaves) {
      TreapUnique(env.algebra.scheme, a.tree, b.tree);
    }
  }

  /** What an item sets can be encoded and is not held yet. */
  ghost predicate LoadsWell<K, V, H>(env: Env<K, V, H>, held: map<K, H>, item: Item<K, V>) {
    && item.key.Some?
    && (item.value.Some? && env.isConsensus(item.key.value) ==>
          env.hashLeaf(item.key.value, item.value.value).Some? && item.key.value !in held)
  }

  /** Every key is a string, every value of a consensus key can be encoded, and no consensus
      key has two values, counting those already held. */
  ghost predicate Loadable<K(!new), V, H>(env: Env<K, V, H>, held: map<K, H>, items: seq<Item<K, V>>) {
    && (forall i :: 0 <= i < |items| ==> LoadsWell(env, held, items[i]))
    && (forall i, j, k :: 0 <= i < j < |items| && Loads(env, items[i], k) ==> !Loads(env, items[j], k))
  }

  lemma {:induction false} LoadableFirst<K(!new), V, H>(env: Env<K, V, H>, c: Cache<K, H>, items: seq<Item<K, V>>)
    requires items != [] && !RebuildRaises(env, c, items[0])
    ensures Loadable(env, c.leaves, items) <==> Loadable(env, LoadOne(env, c, items[0]).leaves, items[1..])
  {
    var rest, held := items[1..], LoadOne(env, c, items[0]).leaves;
    forall k ensures k in held <==> k in c.leaves || Loads(env, items[0], k) {
    }
    if Loadable(env, c.leaves, items) {
      forall i | 0 <= i < |rest| ensures LoadsWell(env, held, rest[i]) {
        assert rest[i] == items[i + 1] && LoadsWell(env, c.leaves, items[i + 1]);
        if rest[i].value.Some? && env.isConsensus(rest[i].key.value) {
          assert Loads(env, items[i + 1], rest[i].key.value);
        }
      }
      forall i, j, k | 0 <= i < j < |rest| && Loads(env, rest[i], k) ensures !Loads(env, rest[j], k) {
        assert rest[i] == items[i + 1] && rest[j] == items[j + 1];
      }
    }
    if Loadable(env, held, rest) {
      forall i | 0 <= i < |items| ensures LoadsWell(env, c.leaves, items[i]) {
        assert i > 0 ==> items[i] == rest[i - 1] && LoadsWell(env, held, rest[i - 1]);
      }
      forall i, j, k | 0 <= i < j < |items| && Loads(env, items[i], k) ensures !Loads(env, items[j], k) {
        assert items[j] == rest[j - 1] && LoadsWell(env, held, rest[j - 1]);
        assert i > 0 ==> items[i] == rest[i - 1];
      }
    }
  }

  lemma {:induction false} LoadsExactly<K(!new), V, H>(env: Env<K, V, H>, c: Cache<K, H>, items: seq<Item<K, V>>)
    ensures LoadAll(env, c, items).1 <==> Loadable(env, c.leaves, items)
    decreases |items|
  {
    if items != [] {
      if RebuildRaises(env, c, items[0]) {
        assert !LoadsWell(env, c.leaves, items[0]);
      } else {
        LoadableFirst(env, c, items);
        LoadsExactly(env, LoadOne(env, c, items[0]), items[1..]);
      }
    }
  }

  /** A rebuild succeeds exactly when its items can be loaded into an empty cache. */
  lemma {:induction false} RebuildRaisesExactly<K(!new), V, H>(env: Env<K, V, H>, items: seq<Item<K, V>>)
    ensures LoadAll(env, EmptyCache<K, H>(), items).1 <==> Loadable<K, V, H>(env, map[], items)
  {
    LoadsExactly(env, EmptyCache<K, H>(), items);
  }

  // ------------------------------------------------------------ runs of the cache

  datatype Call<K, V> = DoPrepare(writes: seq<Item<K, V>>) | DoCommit | DoRollback

  /** The reference: a committed dictionary and the one currently staged on it. */
  datatype Reference<K, H> = Reference(committed: map<K, H>, current: map<K, H>)

  function CacheStep<K(==), V, H(==)>(env: Env<K, V, H>, c: Cache<K, H>, call: Call<K, V>): Cache<K, H> {
    match call
    case DoPrepare(writes) => Prepare(env, c, writes).0
    case DoCommit => Commit(c)
    case DoRollback => Rollback(env, c)
  }

  function ReferenceStep<K(==), V, H>(env: Env<K, V, H>, r: Reference<K, H>, call: Call<K, V>): Reference<K, H> {
    match call
    case DoPrepare(writes) => r.(current := Overlay(env, r.committed, Accepted(env, writes)))
    case DoCommit => r.(committed := r.current)
    case DoRollback => r.(current := r.committed)
  }

  function CacheRun<K(==), V, H(==)>(env: Env<K, V, H>, c: Cache<K, H>, calls: seq<Call<K, V>>): Cache<K, H> {
    if calls == [] then c
    else CacheStep(env, CacheRun(env, c, calls[..|calls| - 1]), calls[|calls| - 1])
  }

  function ReferenceRun<K(==), V, H>(env: Env<K, V, H>, r: Reference<K, H>, calls: seq<Call<K, V>>): Reference<K, H> {
    if calls == [] then r
    else ReferenceStep(env, ReferenceRun(env, r, calls[..|calls| - 1]), calls[|calls| - 1])
  }

  ghost predicate Refines<K(!new), V, H>(env: Env<K, V, H>, c: Cache<K, H>, r: Reference<K, H>) {
    Sound(env, c) && Base(c.leaves, c.staged) == r.committed && c.leaves == r.current
  }

  lemma {:induction false} StepRefines<K(!new), V, H>(
      env: Env<K, V, H>, c: Cache<K, H>, r: Reference<K, H>, call: Call<K, V>)
    requires Refines(env, c, r)
    ensures Refines(env, CacheStep(env, c, call), ReferenceStep(env, r, call))
  {
    RollbackCorrect(env, c);
    if call.DoPrepare? {
      StageAllCorrect(env, Rollback(env, c), call.writes);
    }
  }

  /** Over every run of prepare, commit and rollback the cache is the reference
      dictionary pair, and its root is the one rebuilt from the current dictionary. */
  lemma {:induction false} RunRefines<K(!new), V, H>(
      env: Env<K, V, H>, c: Cache<K, H>, r: Reference<K, H>, calls: seq<Call<K, V>>)
    requires Refines(env, c, r)
    ensures Refines(env, CacheRun(env, c, calls), ReferenceRun(env, r, calls))
    ensures Separated(env.algebra.scheme, ReferenceRun(env, r, calls).current) ==>
      RootHash(env.algebra, CacheRun(env, c, calls).tree) == RootOf(env, ReferenceRun(env, r, calls).current)
  {
    if calls != [] {
      RunRefines(env, c, r, calls[..|calls| - 1]);
      var before := calls[..|calls| - 1];
      StepRefines(env, CacheRun(env, c, before), ReferenceRun(env, r, before), calls[|calls| - 1]);
    }
    if Separated(env.algebra.scheme, ReferenceRun(env, r, calls).current) {
      SoundRoot(env, CacheRun(env, c, calls));
    }
  }

  // ------------------------------------------------------------- the live object

  class StateRootCache<!K(==), !V, !H(==)> {
    const env: Env<K, V, H>
    var root: TreapNode?<K, H>
    var leafHashes: map<K, H>
    var staged: seq<(K, Option<H>)>

    ghost predicate Valid()
      reads this, root, Footprint(root)
    {
      ValidOrNull(env.algebra, root) && this !in Footprint(root)
    }

    /** The cache as a value. */
    ghost function Model(): Cache<K, H>
      reads this, root
    {
      Cache(TreeOf(root), leafHashes, staged)
    }

    constructor (env: Env<K, V, H>)
      ensures this.env == env && Valid() && Model() == EmptyCache() && Footprint(root) == {}
    {
      this.env := env;
      root, leafHashes, staged := null, map[], [];
    }

    method RootHashValue() returns (h: H)
      requires Valid()
      ensures h == RootHash(env.algebra, Model().tree)
    {
      h := SubtreeHash(env.algebra, root);
    }

    method SetLeafHash(key: K, leaf: Option<H>)
      requires Valid()
      modifies this, Footprint(root)
      ensures Valid() && fresh(Footprint(root) - old(Footprint(root)))
      ensures Model() == SetLeaf(env, old(Model()), key, leaf)
    {
      leafHashes := Assign(leafHashes, key, leaf);
      if leaf.None? {
        var top := DeleteNode(env.algebra, root, key);
        root := top;
      } else {
        var top := InsertOrUpdate(env.algebra, root, key, leaf.value);
        root := top;
      }
    }

    method Undo()
      requires Valid()
      modifies this, Footprint(root)
      ensures Valid() && fresh(Footprint(root) - old(Footprint(root)))
      ensures Model() == Rollback(env, old(Model())) && staged == []
    {
      while staged != []
        invariant Valid() && fresh(Footprint(root) - old(Footprint(root)))
        invariant Rollback(env, Model()) == Rollback(env, old(Model()))
        decreases |staged|
      {
        var last := staged[|staged| - 1];
        SetLeafHash(last.0, last.1);
        staged := staged[..|staged| - 1];
      }
    }

    method StageItem(item: Item<K, V>)
      requires Valid() && !Raises(env, item)
      modifies this, Footprint(root)
      ensures Valid() && fresh(Footprint(root) - old(Footprint(root)))
      ensures Model() == StageOne(env, old(Model()), item)
    {
      var key := item.key.value;
      if env.isConsensus(key) {
        var newLeaf, oldLeaf := NewLeaf(env, item), Lookup(leafHashes, key);
        if oldLeaf != newLeaf {
          staged := staged + [(key, oldLeaf)];
          SetLeafHash(key, newLeaf);
        }
      }
    }

    /** Returns the new root, or nothing if an entry raised; what was staged before
        the entry stays staged. */
    method PrepareWrites(writes: seq<Item<K, V>>) returns (r: Option<H>)
      requires Valid()
      modifies this, Footprint(root)
      ensures Valid() && fresh(Footprint(root) - old(Footprint(root)))
      ensures Model() == Prepare(env, old(Model()), writes).0
      ensures r.Some? <==> Prepare(env, old(Model()), writes).1
      ensures r.Some? ==> r.value == RootHash(env.algebra, Model().tree)
    {
      Undo();
      var i := 0;
      while i < |writes|
        invariant 0 <= i <= |writes|
        invariant Valid() && fresh(Footprint(root) - old(Footprint(root)))
        invariant StageAll(env, Model(), writes[i..]) == Prepare(env, old(Model()), writes)
      {
        var item := writes[i];
        if Raises(env, item) {
          return None;
        }
        StageItem(item);
        assert writes[i..][1..] == writes[i + 1..];
        i := i + 1;
      }
      var h := RootHashValue();
      return Some(h);
    }

    method CommitStaged()
      requires Valid()
      modifies this
      ensures Valid() && root == old(root) && Model() == Commit(old(Model()))
    {
      staged := [];
    }

    method Rebuild(items: seq<Item<K, V>>) returns (r: Option<H>)
      requires Valid()
      modifies this, Footprint(root)
      ensures Valid() && fresh(Footprint(root) - old(Footprint(root)))
      ensures Model() == LoadAll(env, EmptyCache(), items).0
      ensures r.Some? <==> LoadAll(env, EmptyCache(), items).1
      ensures r.Some? ==> r.value == RootHash(env.algebra, Model().tree)
    {
      Undo();
      root, leafHashes := null, map[];
      var i := 0;
      assert items[0..] == items;
      while i < |items|
        invariant 0 <= i <= |items|
        invariant Valid() && fresh(Footprint(root) - old(Footprint(root)))
        invariant LoadAll(env, Model(), items[i..]) == LoadAll(env, EmptyCache(), items)
      {
        var item := items[i];
        if RebuildRaises(env, Cache(Empty, leafHashes, []), item) {
          return None;
        }
        if item.value.Some? && env.isConsensus(item.key.value) {
          SetLeafHash(item.key.value, NewLeaf(env, item));
        }
        assert items[i..][1..] == items[i + 1..];
        i := i + 1;
      }
      var h := RootHashValue();
      return Some(h);
    }
  }
}
