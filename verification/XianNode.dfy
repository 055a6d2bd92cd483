/** The running node: the object whose handlers change the database, the pending
    writes, the detached batch and the root cache in place.  Each handler is proved
    to take exactly one step of `Lifecycle`. */
module XianNode {
  import opened Basics
  import opened TreapNodes
  import opened RootCache
  import opened Lifecycle

  class Xian<!K(==), !V, !H(==)> {
    const cfg: Config<K, V, H>
    var disk: map<K, Stored<V, H>>
    var mirror: Option<Block<H>>
    var pending: Writes<K, V, H>
    var pendingCommit: Option<Writes<K, V, H>>
    const cache: StateRootCache<K, Stored<V, H>, H>
    var merkleRootHash: Option<H>
    var currentBlockMeta: Option<Meta>
    /** Where the ABCI connection stands; the node does not store this. */
    ghost var phase: Phase

    ghost predicate Valid()
      reads this, cache, cache.root, Footprint(cache.root)
    {
      cache.Valid() && cache.env == cfg.env && this !in Footprint(cache.root)
    }

    ghost function Model(): App<K, V, H>
      reads this, cache, cache.root
    {
      App(disk, mirror, pending, pendingCommit, cache.Model(), merkleRootHash, currentBlockMeta, phase)
    }

    /** A node around a root cache that has been loaded. */
    constructor (cfg: Config<K, V, H>, disk: map<K, Stored<V, H>>, mirror: Option<Block<H>>,
                 cache: StateRootCache<K, Stored<V, H>, H>)
      requires cache.Valid() && cache.env == cfg.env
      ensures this.cfg == cfg && Valid()
      ensures Model() == App(disk, mirror, [], None, cache.Model(), None, None, Idle)
    {
      this.cfg, this.disk, this.mirror, this.cache := cfg, disk, mirror, cache;
      pending, pendingCommit := [], None;
      merkleRootHash, currentBlockMeta := None, None;
      phase := Idle;
    }

    method ReportInfo(mirrorWritable: bool) returns (block: Block<H>)
      requires Valid()
      modifies this`mirror
      ensures Valid() && block == CommittedBlock(cfg, disk)
      ensures cfg.latestKey !in disk ==> block.hash == None && block.height == 0 && block.nanos == 0
      ensures cfg.latestKey in disk && disk[cfg.latestKey].Latest? ==> block == disk[cfg.latestKey].block
      ensures Model() == Next(cfg, old(Model()), Info(mirrorWritable))
      ensures mirror == if mirrorWritable then Some(block) else old(mirror)
    {
      block := CommittedBlock(cfg, disk);
      if mirror != Some(block) && mirrorWritable {
        mirror := Some(block);
      }
    }

    /** The root over the pending writes; on success they wait outside the live driver. */
    method PrepareCommitBoundary(fault: Fault) returns (raised: bool)
      requires Valid()
      modifies this, cache, Footprint(cache.root)
      ensures Valid() && fresh(Footprint(cache.root) - old(Footprint(cache.root)))
      ensures (Model(), raised) == Boundary(cfg, old(Model()), fault)
    {
      var root := cache.PrepareWrites(AsItems(pending));
      if root.None? {
        return true;
      }
      merkleRootHash := root;
      if fault.AfterPrepare? || pendingCommit.Some? {
        return true;
      }
      pendingCommit, pending := Some(pending), [];
      phase := Finalized;
      return false;
    }

    /** The block pipeline.  Reports whether it raised. */
    method FinalizeWrites(writes: Writes<K, V, H>, meta: Meta, fault: Fault) returns (raised: bool)
      requires Valid()
      modifies this, cache, Footprint(cache.root)
      ensures Valid() && fresh(Footprint(cache.root) - old(Footprint(cache.root)))
      ensures (Model(), raised) == RunPipeline(cfg, old(Model()), writes, meta, fault)
    {
      currentBlockMeta := Some(meta);
      pending := SetKeys(pending, writes);
      if fault.BeforePrepare? {
        return true;
      }
      raised := PrepareCommitBoundary(fault);
    }

    method AbandonBlock()
      requires Valid()
      modifies this, cache, Footprint(cache.root)
      ensures Valid() && Model() == Abandon(cfg, old(Model()))
    {
      pendingCommit := None;
      cache.Undo();
      phase := Broken;
    }

    /** Returns the app hash, or nothing when the handler raised. */
    method HandleFinalizeBlock(writes: Writes<K, V, H>, meta: Meta, fault: Fault) returns (r: Option<H>)
      requires Valid()
      modifies this, cache, Footprint(cache.root)
      ensures Valid()
      ensures Model() == Finalize(cfg, old(Model()), writes, meta, fault)
      ensures r.Some? <==> !RunPipeline(cfg, old(Model()), writes, meta, fault).1
      ensures r.Some? ==> r == merkleRootHash
    {
      var raised := FinalizeWrites(writes, meta, fault);
      if raised {
        AbandonBlock();
        return None;
      }
      return merkleRootHash;
    }

    /** Re-attaches the block's writes and adds the marker to the same batch. */
    method AttachBatch()
      requires Valid() && currentBlockMeta.Some?
      modifies this
      ensures Valid()
      ensures Model() == Attached(cfg, old(Model()))
    {
      if pendingCommit.Some? {
        pending, pendingCommit := pendingCommit.value, None;
      }
      var latest := Block(merkleRootHash, currentBlockMeta.value.height, currentBlockMeta.value.nanos);
      pending := SetKey(pending, cfg.latestKey, Some(Latest(latest)));
    }

    /** The batch is applied; from here on the block is durable. */
    method ApplyBatch(mirrorWritable: bool)
      requires Valid() && currentBlockMeta.Some?
      modifies this, cache
      ensures Valid() && Model() == Durable(old(Model()), mirrorWritable)
    {
      disk, pending, pendingCommit := Apply(disk, pending), [], None;
      cache.CommitStaged();
      if mirrorWritable {
        mirror := Some(Block(merkleRootHash, currentBlockMeta.value.height, currentBlockMeta.value.nanos));
      }
      merkleRootHash, currentBlockMeta := None, None;
      phase := Idle;
    }

    /** Returns whether the block became durable. */
    method HandleCommit(applies: bool, mirrorWritable: bool) returns (durable: bool)
      requires Valid() && currentBlockMeta.Some?
      modifies this, cache
      ensures Valid() && durable == applies
      ensures Model() == CommitBlock(cfg, old(Model()), applies, mirrorWritable)
    {
      AttachBatch();
      if applies {
        ApplyBatch(mirrorWritable);
      }
      return applies;
    }
  }

  /** Startup on what a previous run left on disk; an item that cannot be loaded makes it
      raise, and then there is no node. */
  method StartNode<K(==), V, H(==)>(
      cfg: Config<K, V, H>, disk: map<K, Stored<V, H>>, mirror: Option<Block<H>>,
      items: seq<Item<K, Stored<V, H>>>, mirrorWritable: bool)
      returns (node: Xian?<K, V, H>)
    ensures node != null <==> LoadAll(cfg.env, EmptyCache(), items).1
    ensures node != null ==> fresh(node) && node.cfg == cfg && node.Valid()
    ensures node != null ==> forall before: App<K, V, H> :: before.disk == disk && before.mirror == mirror ==>
              node.Model() == Start(cfg, before, items, mirrorWritable)
  {
    var cache := new StateRootCache(cfg.env);
    var root := cache.Rebuild(items);
    if root.None? {
      return null;
    }
    node := new Xian(cfg, disk, Reconcile(mirror, CommittedBlock(cfg, disk), mirrorWritable), cache);
  }
}
