/** Which entries of a database the app hash covers: two databases have the same root exactly
    when they agree on every contract variable, every stored nonce and the execution policy. */
module RootCoverage {
  import opened Basics
  import opened Treap
  import opened History
  import opened TreapNodes
  import opened RootCache
  import opened StateRootHashing
  import opened Lifecycle

  /** The encoded value a database has at a key. */
  function Encoded<V>(h: Hashing<V>, db: map<string, V>, key: string): Option<Bytes> {
    if key in db then h.json(db[key]) else None
  }

  /** The databases agree on every key that does not start with two underscores, on every
      nonce key, and on the execution policy. */
  ghost predicate AgreeOnConsensus<V(!new)>(h: Hashing<V>, a: map<string, V>, b: map<string, V>) {
    && (forall key :: !("__" <= key) ==> Encoded(h, a, key) == Encoded(h, b, key))
    && (forall key :: "__n." <= key ==> Encoded(h, a, key) == Encoded(h, b, key))
    && Encoded(h, a, "__execution_policy") == Encoded(h, b, "__execution_policy")
  }

  /** The covered part of a database, encoded. */
  ghost function CoveredState<V(!new)>(h: Hashing<V>, db: map<string, V>): map<string, Bytes> {
    map key | key in db && IsConsensusKey(key) && h.json(db[key]).Some? :: h.json(db[key]).value
  }

  ghost function DatabaseCache<V(!new)>(h: Hashing<V>, db: map<string, V>): Cache<string, Bytes> {
    StateOrderTotal(h);
    var leaves := LeavesOf(StateEnv(h), db);
    Cache(Canonical(StateAlgebra(h).scheme, leaves), leaves, [])
  }

  ghost function DatabaseRoot<V(!new)>(h: Hashing<V>, db: map<string, V>): Bytes {
    StateOrderTotal(h);
    RootOf(StateEnv(h), LeavesOf(StateEnv(h), db))
  }

  lemma {:induction false} CoveredLeaf<V(!new)>(h: Hashing<V>, db: map<string, V>, key: string)
    requires Encodable(StateEnv(h), db) && key in db && IsConsensusKey(key)
    ensures key in CoveredState(h, db) && Fits(h, key, CoveredState(h, db)[key])
    ensures LeafHash(h, key, db[key]) == Some(h.sha256(LeafPreimage(h.utf8(key), CoveredState(h, db)[key])))
  {
    assert StateEnv(h).isConsensus(key);
    assert StateEnv(h).hashLeaf(key, db[key]).Some?;
  }

  lemma {:induction false} CoveredLeaves<V(!new)>(h: Hashing<V>, db: map<string, V>)
    requires Encodable(StateEnv(h), db)
    ensures LeavesOf(StateEnv(h), db) == HashedState(h, CoveredState(h, db))
    ensures forall key :: key in CoveredState(h, db) ==> Fits(h, key, CoveredState(h, db)[key])
  {
    var leaves, covered := LeavesOf(StateEnv(h), db), CoveredState(h, db);
    forall key ensures Lookup(leaves, key) == Lookup(HashedState(h, covered), key) {
      if key in db && IsConsensusKey(key) {
        CoveredLeaf(h, db, key);
      }
    }
    LookupEqual(leaves, HashedState(h, covered));
    forall key | key in covered ensures Fits(h, key, covered[key]) {
      CoveredLeaf(h, db, key);
    }
  }

  lemma {:induction false} DatabaseHolds<V(!new)>(h: Hashing<V>, db: map<string, V>)
    requires Encodable(StateEnv(h), db)
    ensures Holds(h, DatabaseCache(h, db), CoveredState(h, db))
    ensures RootHash(StateAlgebra(h), DatabaseCache(h, db).tree) == DatabaseRoot(h, db)
  {
    StateOrderTotal(h);
    CoveredLeaves(h, db);
    CanonicalCorrect(StateAlgebra(h).scheme, LeavesOf(StateEnv(h), db));
  }

  /** Everything hashed on the way to a database's root. */
  ghost function DatabasePreimages<V(!new)>(h: Hashing<V>, db: map<string, V>): set<Bytes>
    requires Encodable(StateEnv(h), db)
  {
    DatabaseHolds(h, db);
    CachePreimages(h, DatabaseCache(h, db), CoveredState(h, db))
  }

  /** A key takes part in consensus exactly when the agreement speaks of it. */
  lemma {:induction false} ConsensusKeys(key: string)
    ensures IsConsensusKey(key) <==> !("__" <= key) || "__n." <= key || key == "__execution_policy"
  {
  }

  lemma {:induction false} CoveredAgree<V(!new)>(h: Hashing<V>, a: map<string, V>, b: map<string, V>)
    requires Encodable(StateEnv(h), a) && Encodable(StateEnv(h), b)
    ensures CoveredState(h, a) == CoveredState(h, b) <==> AgreeOnConsensus(h, a, b)
  {
    forall key ensures IsConsensusKey(key) ==>
        Lookup(CoveredState(h, a), key) == Encoded(h, a, key) && Lookup(CoveredState(h, b), key) == Encoded(h, b, key)
    {
    }
    if CoveredState(h, a) == CoveredState(h, b) {
      forall key | IsConsensusKey(key) ensures Encoded(h, a, key) == Encoded(h, b, key) {
      }
      AgreementCovers(h, a, b);
    }
    if AgreeOnConsensus(h, a, b) {
      forall key ensures Lookup(CoveredState(h, a), key) == Lookup(CoveredState(h, b), key) {
        ConsensusKeys(key);
      }
      LookupEqual(CoveredState(h, a), CoveredState(h, b));
    }
  }

  lemma {:induction false} AgreementCovers<V(!new)>(h: Hashing<V>, a: map<string, V>, b: map<string, V>)
    requires forall key :: IsConsensusKey(key) ==> Encoded(h, a, key) == Encoded(h, b, key)
    ensures AgreeOnConsensus(h, a, b)
  {
    forall key | !("__" <= key) || "__n." <= key ensures Encoded(h, a, key) == Encoded(h, b, key) {
      ConsensusKeys(key);
    }
    ConsensusKeys("__execution_policy");
  }

  /** Unless two of the hashed byte strings collide, the roots of two databases are equal if
      and only if they agree on what takes part in consensus; nothing else shows in a root. */
  lemma {:induction false} RootCoversConsensus<V(!new)>(h: Hashing<V>, a: map<string, V>, b: map<string, V>)
    requires Faithful(h) && Encodable(StateEnv(h), a) && Encodable(StateEnv(h), b)
    requires CollisionFree(h, DatabasePreimages(h, a) + DatabasePreimages(h, b))
    ensures DatabaseRoot(h, a) == DatabaseRoot(h, b) <==> AgreeOnConsensus(h, a, b)
  {
    CoveredAgree(h, a, b);
    if DatabaseRoot(h, a) == DatabaseRoot(h, b) {
      DatabaseHolds(h, a);
      DatabaseHolds(h, b);
      EqualRootsEqualStates(h, DatabaseCache(h, a), CoveredState(h, a), DatabaseCache(h, b), CoveredState(h, b));
    }
    if AgreeOnConsensus(h, a, b) {
      CoveredLeaves(h, a);
      CoveredLeaves(h, b);
    }
  }

  /** The same without any assumption on hashing: what lies outside never changes the root. */
  lemma {:induction false} OthersNeverShow<V(!new)>(h: Hashing<V>, a: map<string, V>, b: map<string, V>)
    requires Encodable(StateEnv(h), a) && Encodable(StateEnv(h), b) && AgreeOnConsensus(h, a, b)
    ensures DatabaseRoot(h, a) == DatabaseRoot(h, b)
  {
    CoveredAgree(h, a, b);
    CoveredLeaves(h, a);
    CoveredLeaves(h, b);
  }
}
