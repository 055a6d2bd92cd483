/** Every ABCI-ordered run of the node, with crashes, failed commits and failing
    mirror writes, is a run of an ideal node that has only a state, the metadata of
    its last block, and the block under way. */
module CrashSafety {
  import opened Basics
  import opened Treap
  import opened History
  import opened TreapNodes
  import opened RootCache
  import opened Lifecycle

  datatype Ideal<K, V, H> = Ideal(
    state: map<K, Stored<V, H>>,
    latest: Option<Meta>,
    proposed: Option<(Writes<K, V, H>, Meta)>)

  /** A block's writes as one dictionary. */
  function Batch<K(==), V, H>(writes: Writes<K, V, H>): Writes<K, V, H> {
    SetKeys([], writes)
  }

  ghost predicate FinalizeSucceeds<K(!new), V, H>(cfg: Config<K, V, H>, writes: Writes<K, V, H>, fault: Fault) {
    fault.NoFault? && AllAccepted(cfg.env, Batch(writes))
  }

  function CommitIdeal<K(==), V, H>(i: Ideal<K, V, H>): Ideal<K, V, H> {
    if i.proposed.None? then i
    else Ideal(Apply(i.state, i.proposed.value.0), Some(i.proposed.value.1), None)
  }

  ghost function IdealNext<K(!new), V, H>(
      cfg: Config<K, V, H>, i: Ideal<K, V, H>, step: Step<K, V, H>): Ideal<K, V, H> {
    match step
    case Restart(_, _) => i
    case Info(_) => i
    case InitChain(genesis, _, _) => Ideal(genesis, None, None)
    case FinalizeBlock(writes, meta, fault) =>
      if FinalizeSucceeds(cfg, writes, fault) then i.(proposed := Some((Batch(writes), meta))) else i
    case Commit(applies, _) => if applies then CommitIdeal(i) else i
    case Crash => i.(proposed := None)
    case CrashInCommit(applied) => if applied then CommitIdeal(i) else i.(proposed := None)
  }

  // ------------------------------------------------------------------- the relation

  ghost predicate GoodConfig<K(!new), V, H>(cfg: Config<K, V, H>) {
    TotalOrder(cfg.env.algebra.scheme) && !cfg.env.isConsensus(cfg.latestKey)
  }

  /** The marker carries the root of the database it lies in. */
  ghost predicate MarkerTrue<K(!new), V, H>(cfg: Config<K, V, H>, disk: map<K, Stored<V, H>>)
    requires GoodConfig(cfg)
  {
    cfg.latestKey in disk && Separated(cfg.env.algebra.scheme, LeavesOf(cfg.env, disk)) ==>
      CommittedBlock(cfg, disk).hash == Some(RootOf(cfg.env, LeavesOf(cfg.env, disk)))
  }

  ghost predicate DiskMatches<K(!new), V, H>(cfg: Config<K, V, H>, disk: map<K, Stored<V, H>>, i: Ideal<K, V, H>)
    requires GoodConfig(cfg)
  {
    && Encodable(cfg.env, disk)
    && MarkerTrue(cfg, disk)
    && disk - {cfg.latestKey} == i.state
    && cfg.latestKey !in i.state
    && (cfg.latestKey in disk <==> i.latest.Some?)
    && (cfg.latestKey in disk ==> disk[cfg.latestKey].Latest?)
    && (cfg.latestKey in disk ==>
          Meta(CommittedBlock(cfg, disk).height, CommittedBlock(cfg, disk).nanos) == i.latest.value)
  }

  /** Undoing what is staged gives the leaves of the database. */
  ghost predicate CacheMatches<K(!new), V, H>(cfg: Config<K, V, H>, s: App<K, V, H>) {
    Sound(cfg.env, s.cache) && Base(s.cache.leaves, s.cache.staged) == LeavesOf(cfg.env, s.disk)
  }

  /** A finalized block waits, detached or (after a failed commit) re-attached. */
  ghost predicate BlockWaits<K(!new), V, H>(cfg: Config<K, V, H>, s: App<K, V, H>, i: Ideal<K, V, H>) {
    && i.proposed.Some? && s.meta == Some(i.proposed.value.1)
    && var w := i.proposed.value.0;
    && AllAccepted(cfg.env, w)
    && (forall j :: 0 <= j < |w| ==> w[j].0 != cfg.latestKey)
    && s.appHash == Some(RootHash(cfg.env.algebra, s.cache.tree))
    && s.cache.leaves == LeavesOf(cfg.env, Apply(s.disk, w))
    && (s.detached == Some(w) || (s.detached.None? && s.pending == SetKey(w, cfg.latestKey, Some(Latest(NewBlock(s))))))
  }

  ghost predicate Related<K(!new), V, H>(cfg: Config<K, V, H>, s: App<K, V, H>, i: Ideal<K, V, H>)
    requires GoodConfig(cfg)
  {
    && DiskMatches(cfg, s.disk, i)
    && (!s.phase.Down? ==> CacheMatches(cfg, s))
    && (s.phase.Finalized? ==> BlockWaits(cfg, s, i))
    && (!s.phase.Finalized? ==> i.proposed.None?)
    && (s.phase.Idle? ==> s.pending == [] && s.detached.None? && s.cache.staged == [])
  }

  lemma {:induction false} AllAcceptedItems<K(!new), V, H>(env: Env<K, Stored<V, H>, H>, w: Writes<K, V, H>)
    ensures AllAccepted(env, w) <==> Accepted(env, AsItems(w)) == AsItems(w)
  {
    var a := Accepted(env, AsItems(w));
    if a != AsItems(w) {
      assert Raises(env, Item(Some(w[|a|].0), w[|a|].1));
    } else {
      forall i | 0 <= i < |w| ensures !Raises(env, Item(Some(w[i].0), w[i].1)) {
        assert a[i] == AsItems(w)[i];
      }
    }
  }

  lemma {:induction false} FinalizeRelated<K(!new), V, H>(
      cfg: Config<K, V, H>, s: App<K, V, H>, i: Ideal<K, V, H>, writes: Writes<K, V, H>, meta: Meta, fault: Fault)
    requires GoodConfig(cfg) && Related(cfg, s, i) && s.phase.Idle?
    requires forall j :: 0 <= j < |writes| ==> writes[j].0 != cfg.latestKey
    ensures Related(cfg, Finalize(cfg, s, writes, meta, fault), IdealNext(cfg, i, FinalizeBlock(writes, meta, fault)))
  {
    var w := Batch(writes);
    SetKeysAvoid([], writes, cfg.latestKey);
    RollbackCorrect(cfg.env, s.cache);
    StageAllCorrect(cfg.env, Rollback(cfg.env, s.cache), AsItems(w));
    AllAcceptedItems(cfg.env, w);
    var (cache, ok) := Prepare(cfg.env, s.cache, AsItems(w));
    if FinalizeSucceeds(cfg, writes, fault) {
      ApplyLeaves(cfg.env, s.disk, w);
    } else {
      RollbackCorrect(cfg.env, cache);
    }
  }

  /** The database after a durable commit. */
  lemma {:induction false} CommittedDisk<K(!new), V, H>(cfg: Config<K, V, H>, s: App<K, V, H>, i: Ideal<K, V, H>)
    requires GoodConfig(cfg) && Related(cfg, s, i) && s.phase.Finalized?
    ensures DiskMatches(cfg, Apply(s.disk, CommitBatch(cfg, s)), CommitIdeal(i))
    ensures LeavesOf(cfg.env, Apply(s.disk, CommitBatch(cfg, s))) == s.cache.leaves
    ensures CommitBatch(cfg, s) == SetKey(i.proposed.value.0, cfg.latestKey, Some(Latest(NewBlock(s))))
  {
    var w := i.proposed.value.0;
    var marker := Some(Latest(NewBlock(s)));
    SetKeyTwice(w, cfg.latestKey, marker);
    assert CommitBatch(cfg, s) == SetKey(w, cfg.latestKey, marker);
    ApplyNewKey(s.disk, w, cfg.latestKey, marker);
    ApplyLeaves(cfg.env, s.disk, w);
    var disk := Apply(s.disk, CommitBatch(cfg, s));
    AssignLeaves(cfg.env, Apply(s.disk, w), cfg.latestKey, marker);
    ApplyWithout(s.disk, w, cfg.latestKey);
    if Separated(cfg.env.algebra.scheme, s.cache.leaves) {
      SoundRoot(cfg.env, s.cache);
    }
  }

  lemma {:induction false} ApplyWithout<K(!new), V, H>(disk: map<K, Stored<V, H>>, w: Writes<K, V, H>, key: K)
    requires forall j :: 0 <= j < |w| ==> w[j].0 != key
    ensures Apply(disk - {key}, w) == Apply(disk, w) - {key}
    decreases |w|
  {
    if w != [] {
      assert Assign(disk - {key}, w[0].0, w[0].1) == Assign(disk, w[0].0, w[0].1) - {key};
      ApplyWithout(Assign(disk, w[0].0, w[0].1), w[1..], key);
    }
  }

  lemma {:induction false} CommitRelated<K(!new), V, H>(
      cfg: Config<K, V, H>, s: App<K, V, H>, i: Ideal<K, V, H>, applies: bool, writable: bool)
    requires GoodConfig(cfg) && Related(cfg, s, i) && s.phase.Finalized?
    ensures Related(cfg, CommitBlock(cfg, s, applies, writable), if applies then CommitIdeal(i) else i)
  {
    CommittedDisk(cfg, s, i);
    var t := CommitBlock(cfg, s, applies, writable);
    if !applies {
      assert NewBlock(t) == NewBlock(s);
    }
  }

  /** One step of the node is one step of the ideal node. */
  lemma {:induction false} StepRelated<K(!new), V, H>(
      cfg: Config<K, V, H>, s: App<K, V, H>, i: Ideal<K, V, H>, step: Step<K, V, H>)
    requires GoodConfig(cfg) && Related(cfg, s, i) && Enabled(cfg, s, step)
    ensures Related(cfg, Next(cfg, s, step), IdealNext(cfg, i, step))
  {
    match step
    case Restart(items, _) => RestartLeaves(cfg.env, s.disk, items);
    case Info(_) =>
    case InitChain(genesis, items, _) => RestartLeaves(cfg.env, genesis, items);
    case FinalizeBlock(writes, meta, fault) => FinalizeRelated(cfg, s, i, writes, meta, fault);
    case Commit(applies, writable) => CommitRelated(cfg, s, i, applies, writable);
    case Crash =>
    case CrashInCommit(applied) => CommitRelated(cfg, s, i, applied, false);
  }

  // ----------------------------------------------------------------------- whole runs

  ghost predicate Runs<K(!new), V, H>(cfg: Config<K, V, H>, s: App<K, V, H>, steps: seq<Step<K, V, H>>, t: App<K, V, H>)
    decreases |steps|
  {
    if steps == [] then t == s else Enabled(cfg, s, steps[0]) && Runs(cfg, Next(cfg, s, steps[0]), steps[1..], t)
  }

  ghost function IdealRun<K(!new), V, H>(
      cfg: Config<K, V, H>, i: Ideal<K, V, H>, steps: seq<Step<K, V, H>>): Ideal<K, V, H>
    decreases |steps|
  {
    if steps == [] then i else IdealRun(cfg, IdealNext(cfg, i, steps[0]), steps[1..])
  }

  lemma {:induction false} RunRelated<K(!new), V, H>(
      cfg: Config<K, V, H>, s: App<K, V, H>, i: Ideal<K, V, H>, steps: seq<Step<K, V, H>>, t: App<K, V, H>)
    requires GoodConfig(cfg) && Related(cfg, s, i) && Runs(cfg, s, steps, t)
    ensures Related(cfg, t, IdealRun(cfg, i, steps))
    decreases |steps|
  {
    if steps != [] {
      StepRelated(cfg, s, i, steps[0]);
      RunRelated(cfg, Next(cfg, s, steps[0]), IdealNext(cfg, i, steps[0]), steps[1..], t);
    }
  }

  lemma {:induction false} LeavesWithoutMarker<K(!new), V, H>(cfg: Config<K, V, H>, disk: map<K, Stored<V, H>>)
    requires GoodConfig(cfg)
    ensures LeavesOf(cfg.env, disk - {cfg.latestKey}) == LeavesOf(cfg.env, disk)
  {
  }

  ghost predicate FreshNode<K(!new), V, H>(s: App<K, V, H>) {
    s.phase.Down? && s.disk == map[]
  }

  /** From an empty database, after any run: the state on disk is the ideal state; a
      marker on disk carries the root of that state; the cache with its staging undone
      is the state's leaves; and Info reports the last durable commit, whatever the
      mirror says. */
  lemma {:induction false} CrashConsistency<K(!new), V, H>(
      cfg: Config<K, V, H>, s: App<K, V, H>, steps: seq<Step<K, V, H>>, t: App<K, V, H>)
    requires GoodConfig(cfg) && FreshNode(s) && Runs(cfg, s, steps, t)
    ensures
      var i := IdealRun(cfg, Ideal(map[], None, None), steps);
      && t.disk - {cfg.latestKey} == i.state
      && MarkerTrue(cfg, t.disk)
      && (!t.phase.Down? ==> Base(t.cache.leaves, t.cache.staged) == LeavesOf(cfg.env, i.state))
      && var info := CommittedBlock(cfg, t.disk);
      && (i.latest.None? ==> info.hash == None && info.height == 0 && info.nanos == 0)
      && (i.latest.Some? ==> Meta(info.height, info.nanos) == i.latest.value)
      && (i.latest.Some? && Separated(cfg.env.algebra.scheme, LeavesOf(cfg.env, i.state)) ==>
           info.hash == Some(RootOf(cfg.env, LeavesOf(cfg.env, i.state))))
  {
    var i := Ideal(map[], None, None);
    RunRelated(cfg, s, i, steps, t);
    LeavesWithoutMarker(cfg, t.disk);
  }

  lemma {:induction false} WaitingRoot<K(!new), V, H>(cfg: Config<K, V, H>, t: App<K, V, H>, i: Ideal<K, V, H>)
    requires GoodConfig(cfg) && Related(cfg, t, i) && t.phase.Finalized?
    ensures t.cache.leaves == LeavesOf(cfg.env, Apply(i.state, i.proposed.value.0))
    ensures t.appHash == Some(RootHash(cfg.env.algebra, t.cache.tree)) && Sound(cfg.env, t.cache)
  {
    var w := i.proposed.value.0;
    ApplyWithout(t.disk, w, cfg.latestKey);
    LeavesWithoutMarker(cfg, Apply(t.disk, w));
  }

  /** Whenever the mirror can be written, a restart, an Info call and a commit that applies
      leave it with the marker on disk; when it cannot, they leave it as it was. */
  lemma {:induction false} MirrorFollows<K(!new), V, H>(
      cfg: Config<K, V, H>, s: App<K, V, H>, i: Ideal<K, V, H>, step: Step<K, V, H>)
    requires GoodConfig(cfg) && Related(cfg, s, i) && Enabled(cfg, s, step)
    requires step.Restart? || step.Info? || (step.Commit? && step.applies)
    ensures
      var t := Next(cfg, s, step);
      t.mirror == if step.mirrorWritable then Some(CommittedBlock(cfg, t.disk)) else s.mirror
  {
    if step.Commit? {
      CommittedDisk(cfg, s, i);
      ApplyNewKey(s.disk, i.proposed.value.0, cfg.latestKey, Some(Latest(NewBlock(s))));
    }
  }

  /** InitChain records the root of the declared genesis state and its number in the
      mirror, keeps the time recorded there, and commits no block: Info still reports
      height 0. */
  lemma {:induction false} GenesisRecorded<K(!new), V, H>(
      cfg: Config<K, V, H>, s: App<K, V, H>, i: Ideal<K, V, H>, genesis: map<K, Stored<V, H>>,
      items: seq<Item<K, Stored<V, H>>>, number: nat)
    requires GoodConfig(cfg) && Related(cfg, s, i) && Enabled(cfg, s, InitChain(genesis, items, number))
    requires Separated(cfg.env.algebra.scheme, LeavesOf(cfg.env, genesis))
    ensures
      var t := Next(cfg, s, InitChain(genesis, items, number));
      && t.disk == genesis && t.pending == [] && t.phase.Idle?
      && t.mirror.Some? && t.mirror.value.hash == Some(RootOf(cfg.env, LeavesOf(cfg.env, genesis)))
      && t.mirror.value.height == number
      && t.mirror.value.nanos == (if s.mirror.Some? then s.mirror.value.nanos else 0)
      && CommittedBlock(cfg, t.disk).hash == None && CommittedBlock(cfg, t.disk).height == 0
  {
    RestartLeaves(cfg.env, genesis, items);
    SoundRoot(cfg.env, Next(cfg, s, InitChain(genesis, items, number)).cache);
  }

  /** Between FinalizeBlock and a successful Commit, the app hash already returned is
      the root the committed state will have. */
  lemma {:induction false} AppHashIsFutureRoot<K(!new), V, H>(
      cfg: Config<K, V, H>, s: App<K, V, H>, steps: seq<Step<K, V, H>>, t: App<K, V, H>)
    requires GoodConfig(cfg) && FreshNode(s) && Runs(cfg, s, steps, t) && t.phase.Finalized?
    ensures
      var i := IdealRun(cfg, Ideal(map[], None, None), steps);
      && i.proposed.Some?
      && var future := LeavesOf(cfg.env, Apply(i.state, i.proposed.value.0));
      && (Separated(cfg.env.algebra.scheme, future) ==> t.appHash == Some(RootOf(cfg.env, future)))
  {
    RunRelated(cfg, s, Ideal(map[], None, None), steps, t);
    WaitingRoot(cfg, t, IdealRun(cfg, Ideal(map[], None, None), steps));
    if Separated(cfg.env.algebra.scheme, t.cache.leaves) {
      SoundRoot(cfg.env, t.cache);
    }
  }

  /** Until a commit is attempted, reads of the live driver (CheckTx, queries) see
      committed state only: the block's writes wait outside it. */
  lemma {:induction false} LiveReadsAreCommitted<K(!new), V, H>(
      cfg: Config<K, V, H>, s: App<K, V, H>, steps: seq<Step<K, V, H>>, t: App<K, V, H>)
    requires GoodConfig(cfg) && FreshNode(s) && Runs(cfg, s, steps, t) && FinalizeDetaches(t)
    ensures Apply(t.disk, t.pending) == t.disk
  {
    DetachedMeansEmpty(cfg, s, steps, t);
  }

  ghost predicate FinalizeDetaches<K(!new), V, H>(t: App<K, V, H>) {
    t.phase.Idle? || (t.phase.Finalized? && t.detached.Some?)
  }

  lemma {:induction false} DetachedMeansEmpty<K(!new), V, H>(
      cfg: Config<K, V, H>, s: App<K, V, H>, steps: seq<Step<K, V, H>>, t: App<K, V, H>)
    requires GoodConfig(cfg) && Runs(cfg, s, steps, t) && (FinalizeDetaches(s) ==> s.pending == [])
    ensures FinalizeDetaches(t) ==> t.pending == []
    decreases |steps|
  {
    if steps != [] {
      DetachedMeansEmpty(cfg, Next(cfg, s, steps[0]), steps[1..], t);
    }
  }
}
