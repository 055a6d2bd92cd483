/** What a failed FinalizeBlock leaves behind.  Its error path rolls the root cache
    back but keeps the driver's pending writes, so a block finalized without a
    restart in between inherits them. */
module FailedFinalize {
  import opened Basics
  import opened RootCache
  import opened Lifecycle
  import opened CrashSafety

  ghost predicate Mentions<K, V, H>(w: Writes<K, V, H>, key: K) {
    exists i :: 0 <= i < |w| && w[i].0 == key
  }

  ghost predicate IsDictionary<K, V, H>(w: Writes<K, V, H>) {
    forall i, j :: 0 <= i < j < |w| ==> w[i].0 != w[j].0
  }

  lemma {:induction false} SetKeyDictionary<K(!new), V, H>(
      disk: map<K, Stored<V, H>>, w: Writes<K, V, H>, key: K, value: Option<Stored<V, H>>)
    requires IsDictionary(w)
    ensures IsDictionary(SetKey(w, key, value))
    ensures Apply(disk, SetKey(w, key, value)) == Assign(Apply(disk, w), key, value)
    decreases |w|
  {
    if w == [] {
      assert SetKey(w, key, value)[1..] == [];
    } else if w[0].0 == key {
      assert SetKey(w, key, value)[1..] == w[1..];
      ApplyOverwrites(disk, w[1..], key, value);
      ApplyOverwrites(disk, w[1..], key, w[0].1);
    } else {
      assert SetKey(w, key, value)[1..] == SetKey(w[1..], key, value);
      SetKeyDictionary(Assign(disk, w[0].0, w[0].1), w[1..], key, value);
      SetKeyAvoids(w[1..], key, value, w[0].0);
    }
  }

  /** A key the dictionary does not mention can be assigned before or after it. */
  lemma {:induction false} ApplyOverwrites<K(!new), V, H>(
      disk: map<K, Stored<V, H>>, w: Writes<K, V, H>, key: K, value: Option<Stored<V, H>>)
    requires forall i :: 0 <= i < |w| ==> w[i].0 != key
    ensures Apply(Assign(disk, key, value), w) == Assign(Apply(disk, w), key, value)
    decreases |w|
  {
    if w != [] {
      assert Assign(Assign(disk, key, value), w[0].0, w[0].1) == Assign(Assign(disk, w[0].0, w[0].1), key, value);
      ApplyOverwrites(Assign(disk, w[0].0, w[0].1), w[1..], key, value);
    }
  }

  lemma {:induction false} SetKeysSequences<K(!new), V, H>(
      disk: map<K, Stored<V, H>>, w: Writes<K, V, H>, more: Writes<K, V, H>)
    requires IsDictionary(w)
    ensures IsDictionary(SetKeys(w, more))
    ensures Apply(disk, SetKeys(w, more)) == Apply(Apply(disk, w), more)
    decreases |more|
  {
    if more != [] {
      SetKeyDictionary(disk, w, more[0].0, more[0].1);
      SetKeysSequences(disk, SetKey(w, more[0].0, more[0].1), more[1..]);
    }
  }

  /** After a dictionary of writes, written keys forget the old state and the others keep it. */
  lemma {:induction false} ApplyLookup<K(!new), V, H>(
      a: map<K, Stored<V, H>>, b: map<K, Stored<V, H>>, w: Writes<K, V, H>, key: K)
    ensures Mentions(w, key) ==> Lookup(Apply(a, w), key) == Lookup(Apply(b, w), key)
    ensures !Mentions(w, key) ==> Lookup(Apply(a, w), key) == Lookup(a, key)
    decreases |w|
  {
    if w != [] {
      var a', b' := Assign(a, w[0].0, w[0].1), Assign(b, w[0].0, w[0].1);
      ApplyLookup(a', b', w[1..], key);
      ApplyLookup(b', a', w[1..], key);
      if i :| 0 <= i < |w[1..]| && w[1..][i].0 == key {
        assert w[i + 1].0 == key;
      }
      if i :| 0 < i < |w| && w[i].0 == key {
        assert w[1..][i - 1].0 == key;
      }
      assert Mentions(w, key) <==> w[0].0 == key || Mentions(w[1..], key);
    }
  }

  /** A block as FinalizeBlock receives it, and where it raises, if not in root preparation. */
  datatype Attempt<K, V, H> = Attempt(writes: Writes<K, V, H>, meta: Meta, fault: Fault)

  function Try<K(==), V, H(==)>(cfg: Config<K, V, H>, s: App<K, V, H>, block: Attempt<K, V, H>): App<K, V, H> {
    Finalize(cfg, s, block.writes, block.meta, block.fault)
  }

  /** It raises: before, inside or after the preparation of the root. */
  predicate Fails<K(==), V, H(==)>(cfg: Config<K, V, H>, s: App<K, V, H>, block: Attempt<K, V, H>) {
    RunPipeline(cfg, s, block.writes, block.meta, block.fault).1
  }

  /** The block that follows a failed one without a restart. */
  function Inherited<K(==), V, H(==)>(
      cfg: Config<K, V, H>, s: App<K, V, H>, failed: Attempt<K, V, H>, next: Attempt<K, V, H>): App<K, V, H> {
    Try(cfg, Try(cfg, s, failed), next)
  }

  /** Wherever the first block raised, the second commits the state a clean node commits if
      and only if every key that only the failed block wrote already had the value it wrote. */
  lemma {:induction false} FailedFinalizeLeaks<K(!new), V, H>(
      cfg: Config<K, V, H>, s: App<K, V, H>, failed: Attempt<K, V, H>, next: Attempt<K, V, H>)
    requires s.pending == [] && s.detached.None? && Fails(cfg, s, failed)
    requires !Fails(cfg, Try(cfg, s, failed), next) && !Fails(cfg, s, next)
    ensures
      var leaky, clean := Restored(Inherited(cfg, s, failed, next)), Restored(Try(cfg, s, next));
      Apply(s.disk, leaky) == Apply(s.disk, clean) <==>
        forall k :: Mentions(failed.writes, k) && !Mentions(next.writes, k) ==>
          Lookup(Apply(s.disk, failed.writes), k) == Lookup(s.disk, k)
  {
    var leaky, clean := Restored(Inherited(cfg, s, failed, next)), Restored(Try(cfg, s, next));
    assert leaky == SetKeys(SetKeys([], failed.writes), next.writes) && clean == SetKeys([], next.writes);
    SetKeysSequences(s.disk, [], failed.writes);
    SetKeysSequences(s.disk, [], next.writes);
    SetKeysSequences(s.disk, SetKeys([], failed.writes), next.writes);
    var dirty := Apply(s.disk, failed.writes);
    forall k
      ensures Lookup(Apply(dirty, next.writes), k) == Lookup(Apply(s.disk, next.writes), k) <==>
        (Mentions(failed.writes, k) && !Mentions(next.writes, k) ==> Lookup(dirty, k) == Lookup(s.disk, k))
    {
      ApplyLookup(dirty, s.disk, next.writes, k);
      ApplyLookup(s.disk, dirty, next.writes, k);
      ApplyLookup(s.disk, dirty, failed.writes, k);
    }
    if forall k :: Mentions(failed.writes, k) && !Mentions(next.writes, k) ==> Lookup(dirty, k) == Lookup(s.disk, k) {
      LookupEqual(Apply(dirty, next.writes), Apply(s.disk, next.writes));
    }
  }

  /** The smallest case: the failed block wrote one new key, and the next block, which does
      not mention it, commits that write. */
  lemma {:induction false} LeftoverWriteCommitted<K(!new), V, H>(
      cfg: Config<K, V, H>, s: App<K, V, H>, key: K, value: Stored<V, H>,
      failed: Attempt<K, V, H>, next: Attempt<K, V, H>)
    requires s.pending == [] && s.detached.None? && key !in s.disk
    requires failed.writes == [(key, Some(value))] && !Mentions(next.writes, key)
    requires Fails(cfg, s, failed) && !Fails(cfg, Try(cfg, s, failed), next)
    ensures Lookup(Apply(s.disk, Restored(Inherited(cfg, s, failed, next))), key) == Some(value)
  {
    assert failed.writes[1..] == [];
    assert Restored(Inherited(cfg, s, failed, next)) == SetKeys(SetKeys([], failed.writes), next.writes);
    SetKeysSequences(s.disk, [], failed.writes);
    SetKeysSequences(s.disk, SetKeys([], failed.writes), next.writes);
    ApplyLookup(Apply(s.disk, failed.writes), s.disk, next.writes, key);
  }

  /** A write that cannot be encoded stays as well: the next block finalizes if and only if it
      raises nowhere else and every write of both blocks together can be encoded. */
  lemma {:induction false} FailurePersists<K(!new), V, H>(
      cfg: Config<K, V, H>, s: App<K, V, H>, failed: Attempt<K, V, H>, next: Attempt<K, V, H>)
    requires s.pending == [] && s.detached.None? && Sound(cfg.env, s.cache) && Fails(cfg, s, failed)
    ensures !Fails(cfg, Try(cfg, s, failed), next) <==>
      next.fault.NoFault? && AllAccepted(cfg.env, SetKeys(SetKeys([], failed.writes), next.writes))
  {
    var first := AsItems(SetKeys([], failed.writes));
    var both := SetKeys(SetKeys([], failed.writes), next.writes);
    RollbackCorrect(cfg.env, s.cache);
    StageAllCorrect(cfg.env, Rollback(cfg.env, s.cache), first);
    var left := Try(cfg, s, failed).cache;
    assert Sound(cfg.env, left) by {
      RollbackCorrect(cfg.env, Prepare(cfg.env, s.cache, first).0);
    }
    RollbackCorrect(cfg.env, left);
    StageAllCorrect(cfg.env, Rollback(cfg.env, left), AsItems(both));
    AllAcceptedItems(cfg.env, both);
  }
}
