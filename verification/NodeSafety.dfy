/** The crash theorem for the node itself: SHA-256 hashing of string keys, and the
    latest-block marker under its own key. */
module NodeSafety {
  import opened Basics
  import opened RootCache
  import opened StateRootHashing
  import opened Lifecycle
  import opened CrashSafety
  import opened RootCoverage

  const LATEST_BLOCK_KEY := "__latest_block"

  function NodeConfig<V>(h: Hashing<Stored<V, Bytes>>): Config<string, V, Bytes> {
    Config(StateEnv(h), LATEST_BLOCK_KEY)
  }

  /** The marker takes no part in consensus, and keys are totally ordered. */
  lemma {:induction false} NodeConfigGood<V>(h: Hashing<Stored<V, Bytes>>)
    ensures GoodConfig(NodeConfig(h))
  {
    StateOrderTotal(h);
    assert LATEST_BLOCK_KEY[3] == 'a';
    assert !StartsWith(LATEST_BLOCK_KEY, "__n.");
  }

  /** No two of the keys in the state have priority preimages that collide. */
  ghost predicate NoPriorityCollision<V(!new)>(h: Hashing<Stored<V, Bytes>>, state: map<string, Stored<V, Bytes>>) {
    CollisionFree(h, set k | k in LeavesOf(StateEnv(h), state) :: PriorityPreimage(h, k))
  }

  /** After any run from an empty database, unless priorities collide, Info reports the root
      of the state on disk with the height and time of the last durable commit. */
  lemma {:induction false} NodeCrashConsistency<V(!new)>(
      h: Hashing<Stored<V, Bytes>>, s: App<string, V, Bytes>,
      steps: seq<Step<string, V, Bytes>>, t: App<string, V, Bytes>)
    requires Faithful(h) && FreshNode(s) && Runs(NodeConfig(h), s, steps, t)
    ensures GoodConfig(NodeConfig(h))
    ensures
      var cfg := NodeConfig(h);
      var i := IdealRun(cfg, Ideal(map[], None, None), steps);
      && t.disk - {LATEST_BLOCK_KEY} == i.state
      && (i.latest.None? ==> CommittedBlock(cfg, t.disk) == Block(None, 0, 0))
      && (i.latest.Some? && NoPriorityCollision(h, i.state) ==>
            CommittedBlock(cfg, t.disk) ==
              Block(Some(RootOf(cfg.env, LeavesOf(cfg.env, i.state))), i.latest.value.height, i.latest.value.nanos))
  {
    NodeConfigGood(h);
    CrashConsistency(NodeConfig(h), s, steps, t);
    var i := IdealRun(NodeConfig(h), Ideal(map[], None, None), steps);
    if NoPriorityCollision(h, i.state) {
      CollisionFreePriorities(h, LeavesOf(StateEnv(h), i.state));
    }
  }

  /** The state an ideal node has reached encodes, like the database it lies in. */
  lemma {:induction false} ReachedEncodable<V(!new)>(
      h: Hashing<Stored<V, Bytes>>, s: App<string, V, Bytes>, steps: seq<Step<string, V, Bytes>>,
      t: App<string, V, Bytes>)
    requires FreshNode(s) && Runs(NodeConfig(h), s, steps, t)
    ensures Encodable(StateEnv(h), IdealRun(NodeConfig(h), Ideal(map[], None, None), steps).state)
  {
    NodeConfigGood(h);
    RunRelated(NodeConfig(h), s, Ideal(map[], None, None), steps, t);
    var i := IdealRun(NodeConfig(h), Ideal(map[], None, None), steps);
    assert i.state == t.disk - {LATEST_BLOCK_KEY};
    forall k | k in i.state && StateEnv(h).isConsensus(k) ensures StateEnv(h).hashLeaf(k, i.state[k]).Some? {
      assert k in t.disk && t.disk[k] == i.state[k];
    }
  }

  /** Two nodes, whatever their runs, crashes and histories, report the same app hash if and
      only if their states agree on every contract variable, every nonce and the execution
      policy, unless hashed byte strings collide. */
  lemma {:induction false} EqualReportsEqualStates<V(!new)>(
      h: Hashing<Stored<V, Bytes>>,
      s: App<string, V, Bytes>, steps: seq<Step<string, V, Bytes>>, t: App<string, V, Bytes>,
      s': App<string, V, Bytes>, steps': seq<Step<string, V, Bytes>>, t': App<string, V, Bytes>,
      a: map<string, Stored<V, Bytes>>, b: map<string, Stored<V, Bytes>>)
    requires Faithful(h) && FreshNode(s) && Runs(NodeConfig(h), s, steps, t)
    requires FreshNode(s') && Runs(NodeConfig(h), s', steps', t')
    requires
      var i := IdealRun(NodeConfig(h), Ideal(map[], None, None), steps);
      var j := IdealRun(NodeConfig(h), Ideal(map[], None, None), steps');
      i.latest.Some? && j.latest.Some? && a == i.state && b == j.state
    requires NoPriorityCollision(h, a) && NoPriorityCollision(h, b)
    requires Encodable(StateEnv(h), a) && Encodable(StateEnv(h), b)
    requires CollisionFree(h, DatabasePreimages(h, a) + DatabasePreimages(h, b))
    ensures
      var cfg := NodeConfig(h);
      CommittedBlock(cfg, t.disk).hash == CommittedBlock(cfg, t'.disk).hash <==> AgreeOnConsensus(h, a, b)
  {
    NodeCrashConsistency(h, s, steps, t);
    NodeCrashConsistency(h, s', steps', t');
    RootCoversConsensus(h, a, b);
  }
}
