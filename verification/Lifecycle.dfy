/** FinalizeBlock, Commit, crash and restart: what is on disk, what is only in
    memory, and what every ABCI-ordered run keeps. */
module Lifecycle {
  import opened Basics
  import opened Treap
  import opened TreapNodes
  import opened RootCache

  /** The latest-block record.  `None` is the empty hash of a chain without commits. */
  datatype Block<H> = Block(hash: Option<H>, height: nat, nanos: nat)

  datatype Meta = Meta(height: nat, nanos: nat)

  /** A database value: contract state, or the latest-block marker. */
  datatype Stored<V, H> = Data(value: V) | Latest(block: Block<H>)

  /** A dictionary of writes in insertion order; a `None` value deletes the key. */
  type Writes<K, V, H> = seq<(K, Option<Stored<V, H>>)>

  datatype Config<!K, !V, !H> = Config(env: Env<K, Stored<V, H>, H>, latestKey: K)

  /** `Broken` is the time between a failed FinalizeBlock and the restart it calls for. */
  datatype Phase = Down | Idle | Finalized | Broken

  /** `disk` and `mirror` survive a crash; everything else is memory. */
  datatype App<K, V, H> = App(
    disk: map<K, Stored<V, H>>,
    mirror: Option<Block<H>>,
    pending: Writes<K, V, H>,
    detached: Option<Writes<K, V, H>>,
    cache: Cache<K, H>,
    appHash: Option<H>,
    meta: Option<Meta>,
    phase: Phase)

  // --------------------------------------------------------------------- the driver

  /** Setting a key of a dictionary: in place when present, at the end otherwise. */
  function SetKey<K(==), V, H>(w: Writes<K, V, H>, key: K, value: Option<Stored<V, H>>): Writes<K, V, H> {
    if w == [] then [(key, value)]
    else if w[0].0 == key then [(key, value)] + w[1..]
    else [w[0]] + SetKey(w[1..], key, value)
  }

  function SetKeys<K(==), V, H>(w: Writes<K, V, H>, more: Writes<K, V, H>): Writes<K, V, H>
    decreases |more|
  {
    if more == [] then w else SetKeys(SetKey(w, more[0].0, more[0].1), more[1..])
  }

  /** The database after an atomic apply of a dictionary of writes. */
  function Apply<K(==), V, H>(disk: map<K, Stored<V, H>>, w: Writes<K, V, H>): map<K, Stored<V, H>>
    decreases |w|
  {
    if w == [] then disk else Apply(Assign(disk, w[0].0, w[0].1), w[1..])
  }

  function AsItems<K, V, H>(w: Writes<K, V, H>): (items: seq<Item<K, Stored<V, H>>>)
    ensures |items| == |w|
    ensures forall i :: 0 <= i < |w| ==> items[i] == Item(Some(w[i].0), w[i].1)
  {
    if w == [] then [] else [Item(Some(w[0].0), w[0].1)] + AsItems(w[1..])
  }

  // ---------------------------------------------------------------- the latest block

  function DefaultBlock<H>(): Block<H> {
    Block(None, 0, 0)
  }

  /** The marker on disk, or the default; the JSON mirror is never consulted. */
  function CommittedBlock<K(==), V, H>(cfg: Config<K, V, H>, disk: map<K, Stored<V, H>>): Block<H> {
    if cfg.latestKey in disk && disk[cfg.latestKey].Latest? then disk[cfg.latestKey].block else DefaultBlock()
  }

  function Reconcile<H(==)>(mirror: Option<Block<H>>, committed: Block<H>, writable: bool): Option<Block<H>> {
    if mirror != Some(committed) && writable then Some(committed) else mirror
  }

  // ------------------------------------------------------------------------ the steps

  /** Where a FinalizeBlock raises, besides root preparation itself. */
  datatype Fault = NoFault | BeforePrepare | AfterPrepare

  datatype Step<K, V, H> =
    | Restart(items: seq<Item<K, Stored<V, H>>>, mirrorWritable: bool)
    | Info(mirrorWritable: bool)
    | InitChain(genesis: map<K, Stored<V, H>>, items: seq<Item<K, Stored<V, H>>>, number: nat)
    | FinalizeBlock(writes: Writes<K, V, H>, meta: Meta, fault: Fault)
    | Commit(applies: bool, mirrorWritable: bool)
    | Crash
    | CrashInCommit(applied: bool)

  function Start<K(==), V, H(==)>(
      cfg: Config<K, V, H>, s: App<K, V, H>, items: seq<Item<K, Stored<V, H>>>, writable: bool): App<K, V, H> {
    App(s.disk, Reconcile(s.mirror, CommittedBlock(cfg, s.disk), writable), [], None,
         LoadAll(cfg.env, EmptyCache(), items).0, None, None, Idle)
  }

  function Genesis<K(==), V, H>(
      cfg: Config<K, V, H>, s: App<K, V, H>, genesis: map<K, Stored<V, H>>, items: seq<Item<K, Stored<V, H>>>,
      number: nat): App<K, V, H> {
    var cache := LoadAll(cfg.env, EmptyCache(), items).0;
    s.(disk := genesis, cache := cache,
       mirror := Some(Block(Some(RootHash(cfg.env.algebra, cache.tree)), number,
                            if s.mirror.Some? then s.mirror.value.nanos else 0)))
  }

  /** The block's transactions have run: their writes are pending. */
  function Executed<K(==), V, H>(s: App<K, V, H>, writes: Writes<K, V, H>, meta: Meta): App<K, V, H> {
    s.(pending := SetKeys(s.pending, writes), meta := Some(meta))
  }

  /** The commit boundary: the root is prepared from the pending writes, which are then
      detached; the flag says that it raised. */
  function Boundary<K(==), V, H(==)>(cfg: Config<K, V, H>, s: App<K, V, H>, fault: Fault): (App<K, V, H>, bool) {
    var (cache, ok) := Prepare(cfg.env, s.cache, AsItems(s.pending));
    var prepared := s.(cache := cache);
    if !ok then (prepared, true) else
      var hashed := prepared.(appHash := Some(RootHash(cfg.env.algebra, cache.tree)));
      if fault.AfterPrepare? || s.detached.Some? then (hashed, true)
      else (hashed.(detached := Some(hashed.pending), pending := [], phase := Finalized), false)
  }

  /** The block pipeline; the flag says that it raised. */
  function RunPipeline<K(==), V, H(==)>(
      cfg: Config<K, V, H>, s: App<K, V, H>, writes: Writes<K, V, H>, meta: Meta, fault: Fault): (App<K, V, H>, bool) {
    var executed := Executed(s, writes, meta);
    if fault.BeforePrepare? then (executed, true) else Boundary(cfg, executed, fault)
  }

  /** The error path: the staged batch goes and the root cache rolls back, but the
      driver's pending writes stay. */
  function Abandon<K(==), V, H>(cfg: Config<K, V, H>, s: App<K, V, H>): App<K, V, H> {
    s.(detached := None, cache := Rollback(cfg.env, s.cache), phase := Broken)
  }

  function Finalize<K(==), V, H(==)>(
      cfg: Config<K, V, H>, s: App<K, V, H>, writes: Writes<K, V, H>, meta: Meta, fault: Fault): App<K, V, H> {
    var (t, raised) := RunPipeline(cfg, s, writes, meta, fault);
    if raised then Abandon(cfg, t) else t
  }

  function Restored<K, V, H>(s: App<K, V, H>): Writes<K, V, H> {
    if s.detached.Some? then s.detached.value else s.pending
  }

  function NewBlock<K, V, H>(s: App<K, V, H>): Block<H>
    requires s.meta.Some?
  {
    Block(s.appHash, s.meta.value.height, s.meta.value.nanos)
  }

  function CommitBatch<K(==), V, H>(cfg: Config<K, V, H>, s: App<K, V, H>): Writes<K, V, H>
    requires s.meta.Some?
  {
    SetKey(Restored(s), cfg.latestKey, Some(Latest(NewBlock(s))))
  }

  /** The block's writes and the marker are pending together. */
  function Attached<K(==), V, H>(cfg: Config<K, V, H>, s: App<K, V, H>): App<K, V, H>
    requires s.meta.Some?
  {
    s.(pending := CommitBatch(cfg, s), detached := None)
  }

  /** The batch has been applied; the mirror may lag behind. */
  function Durable<K(==), V, H>(s: App<K, V, H>, writable: bool): App<K, V, H>
    requires s.meta.Some?
  {
    App(Apply(s.disk, s.pending), if writable then Some(NewBlock(s)) else s.mirror, [], None,
        RootCache.Commit(s.cache), None, None, Idle)
  }

  function CommitBlock<K(==), V, H>(cfg: Config<K, V, H>, s: App<K, V, H>, applies: bool, writable: bool): App<K, V, H>
    requires s.meta.Some?
  {
    if applies then Durable(Attached(cfg, s), writable) else Attached(cfg, s)
  }

  function PowerLoss<K, V, H>(s: App<K, V, H>): App<K, V, H> {
    App(s.disk, s.mirror, [], None, EmptyCache(), None, None, Down)
  }

  /** The items are the entries of the database, each once, in some order. */
  ghost predicate Enumerates<K(!new), S>(items: seq<Item<K, S>>, disk: map<K, S>) {
    && (forall i :: 0 <= i < |items| ==>
          items[i].key.Some? && items[i].key.value in disk && items[i].value == Some(disk[items[i].key.value]))
    && (forall k :: k in disk ==> exists i :: 0 <= i < |items| && items[i].key == Some(k))
    && (forall i, j :: 0 <= i < j < |items| ==> items[i].key != items[j].key)
  }

  /** Nothing in the database fails to encode. */
  ghost predicate Encodable<K(!new), S, H>(env: Env<K, S, H>, disk: map<K, S>) {
    forall k :: k in disk && env.isConsensus(k) ==> env.hashLeaf(k, disk[k]).Some?
  }

  /** The steps CometBFT may take: commit only a finalized block, and nothing but a
      restart after a failed one. */
  ghost predicate Enabled<K(!new), V, H>(cfg: Config<K, V, H>, s: App<K, V, H>, step: Step<K, V, H>) {
    match step
    case Restart(items, _) => s.phase.Down? && Enumerates(items, s.disk)
    case Info(_) => !s.phase.Down?
    case InitChain(genesis, items, _) =>
      && s.phase.Idle? && cfg.latestKey !in s.disk && cfg.latestKey !in genesis
      && Enumerates(items, genesis) && Encodable(cfg.env, genesis)
    case FinalizeBlock(writes, _, _) =>
      s.phase.Idle? && forall i :: 0 <= i < |writes| ==> writes[i].0 != cfg.latestKey
    case Commit(_, _) => s.phase.Finalized?
    case Crash => true
    case CrashInCommit(_) => s.phase.Finalized?
  }

  function Next<K(==), V, H(==)>(cfg: Config<K, V, H>, s: App<K, V, H>, step: Step<K, V, H>): App<K, V, H> {
    match step
    case Restart(items, writable) => Start(cfg, s, items, writable)
    case Info(writable) => s.(mirror := Reconcile(s.mirror, CommittedBlock(cfg, s.disk), writable))
    case InitChain(genesis, items, number) => Genesis(cfg, s, genesis, items, number)
    case FinalizeBlock(writes, meta, fault) => Finalize(cfg, s, writes, meta, fault)
    case Commit(applies, writable) => if s.meta.Some? then CommitBlock(cfg, s, applies, writable) else s
    case Crash => PowerLoss(s)
    case CrashInCommit(applied) =>
      if s.meta.Some? then PowerLoss(CommitBlock(cfg, s, applied, false)) else PowerLoss(s)
  }

  // ------------------------------------------------------------- state and its leaves

  ghost function LeavesOf<K(!new), S, H>(env: Env<K, S, H>, disk: map<K, S>): map<K, H> {
    map k | k in disk && env.isConsensus(k) && env.hashLeaf(k, disk[k]).Some? :: env.hashLeaf(k, disk[k]).value
  }

  ghost predicate AllAccepted<K(!new), V, H>(env: Env<K, Stored<V, H>, H>, w: Writes<K, V, H>) {
    forall i :: 0 <= i < |w| ==> !Raises(env, Item(Some(w[i].0), w[i].1))
  }

  lemma {:induction false} AssignLeaves<K(!new), V, H>(
      env: Env<K, Stored<V, H>, H>, disk: map<K, Stored<V, H>>, key: K, value: Option<Stored<V, H>>)
    requires Encodable(env, disk) && !Raises(env, Item(Some(key), value))
    ensures Encodable(env, Assign(disk, key, value))
    ensures LeavesOf(env, Assign(disk, key, value)) ==
      if env.isConsensus(key) then Assign(LeavesOf(env, disk), key, NewLeaf(env, Item(Some(key), value)))
      else LeavesOf(env, disk)
  {
  }

  /** Hashing a written database is overlaying the writes on its hashes. */
  lemma {:induction false} ApplyLeaves<K(!new), V, H>(
      env: Env<K, Stored<V, H>, H>, disk: map<K, Stored<V, H>>, w: Writes<K, V, H>)
    requires Encodable(env, disk) && AllAccepted(env, w)
    ensures Encodable(env, Apply(disk, w))
    ensures LeavesOf(env, Apply(disk, w)) == Overlay(env, LeavesOf(env, disk), AsItems(w))
    decreases |w|
  {
    if w != [] {
      AssignLeaves(env, disk, w[0].0, w[0].1);
      assert AsItems(w)[1..] == AsItems(w[1..]);
      ApplyLeaves(env, Assign(disk, w[0].0, w[0].1), w[1..]);
    }
  }

  /** A restart rebuilds exactly the leaves of the database. */
  lemma {:induction false} RestartLeaves<K(!new), S, H>(env: Env<K, S, H>, disk: map<K, S>, items: seq<Item<K, S>>)
    requires TotalOrder(env.algebra.scheme) && Enumerates(items, disk) && Encodable(env, disk)
    ensures Sound(env, LoadAll(env, EmptyCache(), items).0)
    ensures LoadAll(env, EmptyCache(), items).0.leaves == LeavesOf(env, disk)
    ensures LoadAll(env, EmptyCache(), items).0.staged == []
  {
    var c: Cache<K, H> := EmptyCache();
    LoadAllCorrect(env, c, items);
    LoadSucceeds(env, c, disk, items);
    var d := LoadAll(env, c, items).0;
    forall k ensures Lookup(d.leaves, k) == Lookup(LeavesOf(env, disk), k) {
      if k in disk && env.isConsensus(k) {
        var i :| 0 <= i < |items| && items[i].key == Some(k);
        assert Loads(env, items[i], k);
      }
    }
    assert forall k :: Lookup(d.leaves, k) == Lookup(LeavesOf(env, disk), k);
    LookupEqual(d.leaves, LeavesOf(env, disk));
  }

  lemma {:induction false} LoadSucceeds<K(!new), S, H>(
      env: Env<K, S, H>, c: Cache<K, H>, disk: map<K, S>, items: seq<Item<K, S>>)
    requires Encodable(env, disk)
    requires forall i :: 0 <= i < |items| ==>
      items[i].key.Some? && items[i].key.value in disk && items[i].value == Some(disk[items[i].key.value])
    requires forall i, j :: 0 <= i < j < |items| ==> items[i].key != items[j].key
    requires forall i :: 0 <= i < |items| ==> items[i].key.value !in c.leaves
    ensures LoadAll(env, c, items).1
    decreases |items|
  {
    if items != [] {
      LoadSucceeds(env, LoadOne(env, c, items[0]), disk, items[1..]);
    }
  }

  // ----------------------------------------------------------- dictionaries of writes

  lemma {:induction false} SetKeyAvoids<K(!new), V, H>(
      w: Writes<K, V, H>, key: K, value: Option<Stored<V, H>>, other: K)
    requires other != key && forall i :: 0 <= i < |w| ==> w[i].0 != other
    ensures forall i :: 0 <= i < |SetKey(w, key, value)| ==> SetKey(w, key, value)[i].0 != other
  {
    if w != [] && w[0].0 != key {
      SetKeyAvoids(w[1..], key, value, other);
    }
  }

  lemma {:induction false} SetKeysAvoid<K(!new), V, H>(w: Writes<K, V, H>, more: Writes<K, V, H>, other: K)
    requires forall i :: 0 <= i < |w| ==> w[i].0 != other
    requires forall i :: 0 <= i < |more| ==> more[i].0 != other
    ensures forall i :: 0 <= i < |SetKeys(w, more)| ==> SetKeys(w, more)[i].0 != other
    decreases |more|
  {
    if more != [] {
      SetKeyAvoids(w, more[0].0, more[0].1, other);
      SetKeysAvoid(SetKey(w, more[0].0, more[0].1), more[1..], other);
    }
  }

  lemma {:induction false} SetKeyTwice<K(!new), V, H>(w: Writes<K, V, H>, key: K, value: Option<Stored<V, H>>)
    ensures SetKey(SetKey(w, key, value), key, value) == SetKey(w, key, value)
  {
    if w == [] {
    } else if w[0].0 == key {
    } else {
      SetKeyTwice(w[1..], key, value);
    }
  }

  /** A key absent from the dictionary is written last. */
  lemma {:induction false} ApplyNewKey<K(!new), V, H>(
      disk: map<K, Stored<V, H>>, w: Writes<K, V, H>, key: K, value: Option<Stored<V, H>>)
    requires forall i :: 0 <= i < |w| ==> w[i].0 != key
    ensures Apply(disk, SetKey(w, key, value)) == Assign(Apply(disk, w), key, value)
    ensures Lookup(Apply(disk, w), key) == Lookup(disk, key)
    decreases |w|
  {
    if w == [] {
      assert SetKey(w, key, value)[1..] == [];
    } else {
      assert SetKey(w, key, value)[1..] == SetKey(w[1..], key, value);
      ApplyNewKey(Assign(disk, w[0].0, w[0].1), w[1..], key, value);
    }
  }
}
