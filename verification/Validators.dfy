/** Choosing the validator set from contract state and telling the consensus engine how it
    changed. */
module Validators {
  import opened Basics

  /** How validator keys are written: which texts are keys at all, and the lower-case form
      that identifies one.  Several texts may be the same key in different case. */
  datatype Naming<!K> = Naming(formatted: K -> bool, lower: K -> K)

  /** The stored active list may be anything; only a list is used. */
  datatype Active<K> = NotAList | Listed(keys: seq<K>)

  type Powers<K> = map<K, int>

  /** Contract state the handler reads, and the effective set it persists beside it. */
  datatype Store<K> = Store(active: Active<K>, power: map<K, real>, effective: Option<Powers<K>>)

  const DEFAULT_POWER := 10

  /** A missing or non-positive power counts as the default, a fraction is cut off. */
  function PowerOf<K>(power: map<K, real>, k: K): (p: int)
    ensures p >= 0
    ensures p == 0 <==> k in power && 0.0 < power[k] < 1.0
  {
    if k !in power || power[k] <= 0.0 then DEFAULT_POWER else power[k].Floor
  }

  // ------------------------------------------------------------------------- the selection

  ghost predicate Listing<K(!new)>(n: Naming<K>, list: seq<K>, v: K) {
    v in list && n.formatted(v)
  }

  /** `m` is what the list asks for: every listed key has its power, and nothing else is in. */
  ghost predicate Selects<K(!new)>(n: Naming<K>, list: seq<K>, power: map<K, real>, m: Powers<K>) {
    && (forall v :: Listing(n, list, v) ==> n.lower(v) in m && m[n.lower(v)] == PowerOf(power, v))
    && (forall k :: k in m ==> Chosen(n, list, k))
  }

  ghost predicate Chosen<K(!new)>(n: Naming<K>, list: seq<K>, k: K) {
    exists v :: Listing(n, list, v) && n.lower(v) == k
  }

  lemma {:induction false} SelectionUnique<K(!new)>(
      n: Naming<K>, list: seq<K>, power: map<K, real>, m: Powers<K>, m': Powers<K>)
    requires Selects(n, list, power, m) && Selects(n, list, power, m')
    ensures m == m'
  {
    forall k | k in m ensures k in m' && m[k] == m'[k] {
      var v :| Listing(n, list, v) && n.lower(v) == k;
    }
    forall k | k in m' ensures k in m {
      var v :| Listing(n, list, v) && n.lower(v) == k;
    }
  }

  /** The selected set: none when the state holds no list, or when two spellings of one key
      have different powers. */
  ghost function Selection<K(!new)>(n: Naming<K>, active: Active<K>, power: map<K, real>): Option<Powers<K>> {
    if active.Listed? && exists m :: Selects(n, active.keys, power, m)
    then
      var m :| Selects(n, active.keys, power, m);
      Some(m)
    else None
  }

  /** Two lists that ask for the same keys at the same powers. */
  ghost predicate SameRequests<K(!new)>(n: Naming<K>, list: seq<K>, list': seq<K>, power: map<K, real>) {
    && (forall v :: Listing(n, list, v) ==> Requested(n, list', power, n.lower(v), PowerOf(power, v)))
    && (forall v :: Listing(n, list', v) ==> Requested(n, list, power, n.lower(v), PowerOf(power, v)))
  }

  ghost predicate Requested<K(!new)>(n: Naming<K>, list: seq<K>, power: map<K, real>, k: K, p: int) {
    exists v :: Listing(n, list, v) && n.lower(v) == k && PowerOf(power, v) == p
  }

  lemma {:induction false} RequestsCarryOver<K(!new)>(
      n: Naming<K>, list: seq<K>, list': seq<K>, power: map<K, real>, m: Powers<K>)
    requires SameRequests(n, list, list', power) && Selects(n, list, power, m)
    ensures Selects(n, list', power, m)
  {
    forall v | Listing(n, list', v) ensures n.lower(v) in m && m[n.lower(v)] == PowerOf(power, v) {
      assert Requested(n, list, power, n.lower(v), PowerOf(power, v));
    }
    forall k | k in m ensures Chosen(n, list', k) {
      var v :| Listing(n, list, v) && n.lower(v) == k;
      assert Requested(n, list', power, n.lower(v), PowerOf(power, v));
    }
  }

  /** The order of the list, repetitions, and the case a key is spelled in make no
      difference, not even to whether there is a selection. */
  lemma {:induction false} SelectionIgnoresOrderAndCase<K(!new)>(
      n: Naming<K>, list: seq<K>, list': seq<K>, power: map<K, real>)
    requires SameRequests(n, list, list', power)
    ensures Selection(n, Listed(list), power) == Selection(n, Listed(list'), power)
  {
    forall m ensures Selects(n, list, power, m) <==> Selects(n, list', power, m) {
      if Selects(n, list, power, m) {
        RequestsCarryOver(n, list, list', power, m);
      }
      if Selects(n, list', power, m) {
        RequestsCarryOver(n, list', list, power, m);
      }
    }
    if m :| Selects(n, list, power, m) {
      var a, b := Selection(n, Listed(list), power).value, Selection(n, Listed(list'), power).value;
      SelectionUnique(n, list, power, a, b);
    }
  }

  ghost function Desired<K(!new)>(n: Naming<K>, s: Store<K>): Powers<K> {
    var chosen := Selection(n, s.active, s.power);
    if chosen.Some? then chosen.value else map[]
  }

  /** The set in force once `s` is committed: the persisted one, or on chains without one
      what the contract asks for. */
  ghost function Effective<K(!new)>(n: Naming<K>, s: Store<K>): Powers<K> {
    if s.effective.Some? then s.effective.value else Desired(n, s)
  }

  // ------------------------------------------------------------------------- the updates

  datatype Update<K> = Update(key: K, power: int)

  /** The consensus engine's side: power zero removes a validator. */
  function ApplyUpdate<K>(engine: Powers<K>, u: Update<K>): Powers<K> {
    if u.power == 0 then engine - {u.key} else engine[u.key := u.power]
  }

  function ApplyUpdates<K>(engine: Powers<K>, updates: seq<Update<K>>): Powers<K> {
    if updates == [] then engine else
      var n := |updates| - 1;
      ApplyUpdate(ApplyUpdates(engine, updates[..n]), updates[n])
  }

  /** The validators that have a vote. */
  function Voting<K>(m: Powers<K>): Powers<K> {
    map k | k in m && m[k] != 0 :: m[k]
  }

  /** What `k` has to be told when the set goes from `before` to `after`. */
  function Change<K>(before: Powers<K>, after: Powers<K>, k: K): Option<int> {
    if k in after then (if Lookup(before, k) != Some(after[k]) then Some(after[k]) else None)
    else if k in before then Some(0) else None
  }

  ghost predicate OneEach<K(!new)>(updates: seq<Update<K>>) {
    forall i, j :: 0 <= i < j < |updates| ==> updates[i].key != updates[j].key
  }

  ghost predicate Announced<K(!new)>(updates: seq<Update<K>>, k: K) {
    exists i :: 0 <= i < |updates| && updates[i].key == k
  }

  /** One update for each key that changes, and no other. */
  ghost predicate Announces<K(!new)>(before: Powers<K>, after: Powers<K>, updates: seq<Update<K>>) {
    && OneEach(updates)
    && (forall i :: 0 <= i < |updates| ==> Change(before, after, updates[i].key) == Some(updates[i].power))
    && (forall k :: Change(before, after, k).Some? ==> Announced(updates, k))
  }

  lemma {:induction false} ApplyUntouched<K(!new)>(engine: Powers<K>, updates: seq<Update<K>>, k: K)
    requires !Announced(updates, k)
    ensures Lookup(ApplyUpdates(engine, updates), k) == Lookup(engine, k)
  {
    if updates != [] {
      var n := |updates| - 1;
      forall i | 0 <= i < n ensures updates[..n][i].key != k {
        assert updates[i].key != k;
      }
      ApplyUntouched(engine, updates[..n], k);
      assert updates[n].key != k;
    }
  }

  lemma {:induction false} ApplyLast<K(!new)>(engine: Powers<K>, updates: seq<Update<K>>, i: nat)
    requires OneEach(updates) && i < |updates|
    ensures Lookup(ApplyUpdates(engine, updates), updates[i].key) ==
      if updates[i].power == 0 then None else Some(updates[i].power)
  {
    var n := |updates| - 1;
    if i < n {
      ApplyLast(engine, updates[..n], i);
    }
  }

  /** The engine ends with exactly the voting members of the new set. */
  lemma {:induction false} AnnouncedSetArrives<K(!new)>(before: Powers<K>, after: Powers<K>, updates: seq<Update<K>>)
    requires Announces(before, after, updates)
    ensures ApplyUpdates(Voting(before), updates) == Voting(after)
  {
    forall k ensures Lookup(ApplyUpdates(Voting(before), updates), k) == Lookup(Voting(after), k) {
      if i :| 0 <= i < |updates| && updates[i].key == k {
        ApplyLast(Voting(before), updates, i);
      } else {
        assert !Announced(updates, k);
        ApplyUntouched(Voting(before), updates, k);
      }
    }
    LookupEqual(ApplyUpdates(Voting(before), updates), Voting(after));
  }

  // ---------------------------------------------------------------------------- whole runs

  /** What the block's transactions left in contract state, and the updates it returned. */
  datatype Block<K> = Block(active: Active<K>, power: map<K, real>, updates: seq<Update<K>>)

  datatype Chain<K> = Chain(disk: Store<K>, engine: Powers<K>)

  /** The set the block makes effective: a selection, or else the set already in force. */
  ghost function NextSet<K(!new)>(n: Naming<K>, disk: Store<K>, live: Store<K>): Powers<K> {
    if Desired(n, live) == map[] then Effective(n, disk) else Desired(n, live)
  }

  ghost function Live<K(!new)>(c: Chain<K>, b: Block<K>): Store<K> {
    Store(b.active, b.power, c.disk.effective)
  }

  /** The store once the handler has persisted the effective set. */
  ghost function Persisted<K(!new)>(n: Naming<K>, disk: Store<K>, live: Store<K>): Store<K> {
    var chosen := NextSet(n, disk, live);
    if chosen == map[] then live else live.(effective := Some(chosen))
  }

  ghost predicate Faithful<K(!new)>(n: Naming<K>, c: Chain<K>, b: Block<K>) {
    Announces(Effective(n, c.disk), NextSet(n, c.disk, Live(c, b)), b.updates)
  }

  ghost function Step<K(!new)>(n: Naming<K>, c: Chain<K>, b: Block<K>): Chain<K> {
    Chain(Persisted(n, c.disk, Live(c, b)), ApplyUpdates(c.engine, b.updates))
  }

  ghost function RunChain<K(!new)>(n: Naming<K>, c: Chain<K>, blocks: seq<Block<K>>): Chain<K> {
    if blocks == [] then c else Step(n, RunChain(n, c, blocks[..|blocks| - 1]), blocks[|blocks| - 1])
  }

  ghost predicate FaithfulRun<K(!new)>(n: Naming<K>, c: Chain<K>, blocks: seq<Block<K>>) {
    forall i :: 0 <= i < |blocks| ==> Faithful(n, RunChain(n, c, blocks[..i]), blocks[i])
  }

  ghost predicate Tracking<K(!new)>(n: Naming<K>, c: Chain<K>) {
    c.engine == Voting(Effective(n, c.disk)) && c.disk.effective != Some(map[])
  }

  lemma {:induction false} StepTracks<K(!new)>(n: Naming<K>, c: Chain<K>, b: Block<K>)
    requires Tracking(n, c) && Faithful(n, c, b)
    ensures Tracking(n, Step(n, c, b))
    ensures Effective(n, c.disk) != map[] ==> Effective(n, Step(n, c, b).disk) != map[]
  {
    AnnouncedSetArrives(Effective(n, c.disk), NextSet(n, c.disk, Live(c, b)), b.updates);
  }

  /** From a genesis set that matches contract state, the engine's set is the voting part of
      the persisted effective set after every block, and an effective set never runs empty. */
  lemma {:induction false} ValidatorSetTracked<K(!new)>(n: Naming<K>, genesis: Chain<K>, blocks: seq<Block<K>>)
    requires Tracking(n, genesis) && FaithfulRun(n, genesis, blocks)
    ensures Tracking(n, RunChain(n, genesis, blocks))
    ensures Effective(n, genesis.disk) != map[] ==> Effective(n, RunChain(n, genesis, blocks).disk) != map[]
  {
    if blocks != [] {
      var m := |blocks| - 1;
      forall i | 0 <= i < m ensures Faithful(n, RunChain(n, genesis, blocks[..m][..i]), blocks[..m][i]) {
        assert blocks[..m][..i] == blocks[..i];
      }
      ValidatorSetTracked(n, genesis, blocks[..m]);
      StepTracks(n, RunChain(n, genesis, blocks[..m]), blocks[m]);
    }
  }

  /** What a listed validator is announced with: an integer power as it is, a missing or
      non-positive one as ten, a fraction cut off. */
  ghost predicate Expected<K>(power: map<K, real>, v: K, p: int) {
    if v !in power || power[v] <= 0.0 then p == 10 else p as real <= power[v] < p as real + 1.0
  }

  /** Once a selection is adopted, every listed validator votes with its expected power. */
  lemma {:induction false} AnnouncedPower<K(!new)>(n: Naming<K>, c: Chain<K>, b: Block<K>, v: K)
    requires Tracking(n, c) && Faithful(n, c, b)
    requires b.active.Listed? && Listing(n, b.active.keys, v) && Desired(n, Live(c, b)) != map[]
    ensures
      var after, key := Step(n, c, b), n.lower(v);
      && key in Effective(n, after.disk) && Expected(b.power, v, Effective(n, after.disk)[key])
      && Lookup(after.engine, key) ==
           if Effective(n, after.disk)[key] == 0 then None else Some(Effective(n, after.disk)[key])
  {
    var m := Desired(n, Live(c, b));
    assert Selects(n, b.active.keys, b.power, m);
    StepTracks(n, c, b);
  }

  /** Only listed keys are in the set, and there is a selection exactly when no two spellings
      of a key have different powers. */
  lemma {:induction false} SelectionExists<K(!new)>(n: Naming<K>, list: seq<K>, power: map<K, real>)
    ensures Selection(n, Listed(list), power).Some? <==>
      forall v, w :: Listing(n, list, v) && Listing(n, list, w) && n.lower(v) == n.lower(w) ==>
        PowerOf(power, v) == PowerOf(power, w)
  {
    if Selection(n, Listed(list), power).Some? {
      assert Selects(n, list, power, Selection(n, Listed(list), power).value);
    }
    if OnePowerEach(n, list, power) {
      CollectedSelects(n, list, power);
    }
  }

  ghost function Collected<K(!new)>(n: Naming<K>, list: seq<K>, power: map<K, real>): Powers<K> {
    if list == [] then map[] else
      var before, last := Collected(n, list[..|list| - 1], power), list[|list| - 1];
      if n.formatted(last) then before[n.lower(last) := PowerOf(power, last)] else before
  }

  /** No two spellings of a listed key have different powers. */
  ghost predicate OnePowerEach<K(!new)>(n: Naming<K>, list: seq<K>, power: map<K, real>) {
    forall v, w :: Listing(n, list, v) && Listing(n, list, w) && n.lower(v) == n.lower(w) ==>
      PowerOf(power, v) == PowerOf(power, w)
  }

  lemma {:induction false} PrefixOnePower<K(!new)>(n: Naming<K>, list: seq<K>, power: map<K, real>, k: nat)
    requires k <= |list| && OnePowerEach(n, list, power)
    ensures OnePowerEach(n, list[..k], power)
  {
    forall v | Listing(n, list[..k], v) ensures Listing(n, list, v) {
    }
  }

  lemma {:induction false} AgreesWithPrefix<K(!new)>(
      n: Naming<K>, list: seq<K>, power: map<K, real>, k: nat, m: Powers<K>)
    requires k < |list| && OnePowerEach(n, list, power) && Selects(n, list[..k], power, m)
    requires n.formatted(list[k]) && n.lower(list[k]) in m
    ensures m[n.lower(list[k])] == PowerOf(power, list[k])
  {
    assert Chosen(n, list[..k], n.lower(list[k]));
    var v :| Listing(n, list[..k], v) && n.lower(v) == n.lower(list[k]);
    assert Listing(n, list, v) && Listing(n, list, list[k]);
  }

  lemma {:induction false} CollectedSelects<K(!new)>(n: Naming<K>, list: seq<K>, power: map<K, real>)
    requires OnePowerEach(n, list, power)
    ensures Selects(n, list, power, Collected(n, list, power))
  {
    if list != [] {
      var k := |list| - 1;
      PrefixOnePower(n, list, power, k);
      CollectedSelects(n, list[..k], power);
      var m := Collected(n, list[..k], power);
      if n.formatted(list[k]) && n.lower(list[k]) in m {
        AgreesWithPrefix(n, list, power, k, m);
      }
      SelectsOneMore(n, list, power, k, m);
      assert list[..k + 1] == list;
    }
  }

  // --------------------------------------------------------------------- fractional powers

  /** A power between zero and one is cut to zero. */
  ghost predicate Fraction<K(!new)>(n: Naming<K>, list: seq<K>, power: map<K, real>, v: K) {
    Listing(n, list, v) && v in power && 0.0 < power[v] < 1.0
  }

  ghost predicate Fractional<K(!new)>(n: Naming<K>, s: Store<K>) {
    && s.active.Listed? && Desired(n, s) != map[]
    && exists v :: Fraction(n, s.active.keys, s.power, v)
  }

  ghost predicate AllVote<K>(m: Powers<K>) {
    forall k :: k in m ==> m[k] != 0
  }

  lemma {:induction false} AllVoteExactly<K>(m: Powers<K>)
    ensures AllVote(m) <==> Voting(m) == m
  {
    if k :| k in m && m[k] == 0 {
      assert k !in Voting(m);
    }
  }

  lemma {:induction false} FractionsLoseTheirVote<K(!new)>(n: Naming<K>, s: Store<K>)
    requires Desired(n, s) != map[]
    ensures AllVote(Desired(n, s)) <==> !Fractional(n, s)
  {
    var list, m := s.active.keys, Desired(n, s);
    assert Selects(n, list, s.power, m);
    if v :| Fraction(n, list, s.power, v) {
      assert m[n.lower(v)] == 0;
    }
    if k :| k in m && m[k] == 0 {
      assert Chosen(n, list, k);
      var v :| Listing(n, list, v) && n.lower(v) == k;
      assert Fraction(n, list, s.power, v);
    }
  }

  /** As long as the engine's set is the effective set, a block keeps them equal exactly when
      it adopts no power between zero and one. */
  lemma {:induction false} ExactTracking<K(!new)>(n: Naming<K>, c: Chain<K>, b: Block<K>)
    requires Tracking(n, c) && c.engine == Effective(n, c.disk) && Faithful(n, c, b)
    ensures Step(n, c, b).engine == Effective(n, Step(n, c, b).disk) <==> !Fractional(n, Live(c, b))
  {
    StepTracks(n, c, b);
    AllVoteExactly(Effective(n, c.disk));
    AllVoteExactly(Effective(n, Step(n, c, b).disk));
    if Desired(n, Live(c, b)) != map[] {
      FractionsLoseTheirVote(n, Live(c, b));
    }
  }

  /** Over a whole run without such powers the engine holds the effective set itself, and
      never runs out of validators. */
  lemma {:induction false} ExactTrackingRun<K(!new)>(n: Naming<K>, genesis: Chain<K>, blocks: seq<Block<K>>)
    requires Tracking(n, genesis) && genesis.engine == Effective(n, genesis.disk) && FaithfulRun(n, genesis, blocks)
    requires forall i :: 0 <= i < |blocks| ==> !Fractional(n, Live(RunChain(n, genesis, blocks[..i]), blocks[i]))
    ensures RunChain(n, genesis, blocks).engine == Effective(n, RunChain(n, genesis, blocks).disk)
    ensures genesis.engine != map[] ==> RunChain(n, genesis, blocks).engine != map[]
  {
    ValidatorSetTracked(n, genesis, blocks);
    if blocks != [] {
      var m := |blocks| - 1;
      forall i | 0 <= i < m
        ensures blocks[..m][..i] == blocks[..i] && Faithful(n, RunChain(n, genesis, blocks[..m][..i]), blocks[..m][i])
      {
        assert blocks[..m][..i] == blocks[..i];
      }
      ExactTrackingRun(n, genesis, blocks[..m]);
      ValidatorSetTracked(n, genesis, blocks[..m]);
      ExactTracking(n, RunChain(n, genesis, blocks[..m]), blocks[m]);
    }
  }

  /** Then the engine is never asked to remove a validator it does not have, nor told a power
      it already knows. */
  lemma {:induction false} UpdatesAreNews<K(!new)>(n: Naming<K>, c: Chain<K>, b: Block<K>, i: nat)
    requires Tracking(n, c) && c.engine == Effective(n, c.disk) && Faithful(n, c, b)
    requires !Fractional(n, Live(c, b)) && i < |b.updates|
    ensures b.updates[i].power == 0 ==> b.updates[i].key in c.engine
    ensures Lookup(c.engine, b.updates[i].key) != Some(b.updates[i].power)
  {
    var next := NextSet(n, c.disk, Live(c, b));
    ExactTracking(n, c, b);
    AllVoteExactly(Effective(n, c.disk));
    if Desired(n, Live(c, b)) != map[] {
      FractionsLoseTheirVote(n, Live(c, b));
    }
    assert Change(Effective(n, c.disk), next, b.updates[i].key) == Some(b.updates[i].power);
  }

  /** A single validator at power one half: the effective set is not empty, but the engine
      is told to drop its last validator. */
  lemma {:induction false} HalfPowerEmptiesEngine<K(!new)>(n: Naming<K>, c: Chain<K>, v: K, updates: seq<Update<K>>)
    requires n.formatted(v) && Tracking(n, c) && c.engine == map[n.lower(v) := 10]
    requires Faithful(n, c, Block(Listed([v]), map[v := 0.5], updates))
    ensures Step(n, c, Block(Listed([v]), map[v := 0.5], updates)).engine == map[]
  {
    var b := Block(Listed([v]), map[v := 0.5], updates);
    var m := map[n.lower(v) := 0];
    assert Listing(n, [v], v);
    assert Selects(n, [v], b.power, m) by {
      assert PowerOf(b.power, v) == 0;
    }
    SelectionUnique(n, [v], b.power, m, Desired(n, Live(c, b)));
    assert n.lower(v) in Desired(n, Live(c, b));
    StepTracks(n, c, b);
  }

  // ----------------------------------------------------------------------------- the handler

  lemma {:induction false} SelectsOneMore<K(!new)>(
      n: Naming<K>, list: seq<K>, power: map<K, real>, i: nat, m: Powers<K>)
    requires i < |list| && Selects(n, list[..i], power, m)
    ensures !n.formatted(list[i]) ==> Selects(n, list[..i + 1], power, m)
    ensures
      var k, p := n.lower(list[i]), PowerOf(power, list[i]);
      n.formatted(list[i]) && (k in m ==> m[k] == p) ==> Selects(n, list[..i + 1], power, m[k := p])
  {
    assert list[..i + 1] == list[..i] + [list[i]];
    forall v ensures Listing(n, list[..i + 1], v) <==> Listing(n, list[..i], v) || (v == list[i] && n.formatted(v)) {
    }
    forall k | Chosen(n, list[..i], k) ensures Chosen(n, list[..i + 1], k) {
      var v :| Listing(n, list[..i], v) && n.lower(v) == k;
      assert Listing(n, list[..i + 1], v);
    }
    if n.formatted(list[i]) {
      assert Listing(n, list[..i + 1], list[i]);
    }
  }

  lemma {:induction false} ConflictRefuses<K(!new)>(
      n: Naming<K>, list: seq<K>, power: map<K, real>, i: nat, m: Powers<K>)
    requires i < |list| && n.formatted(list[i]) && Selects(n, list[..i], power, m)
    requires n.lower(list[i]) in m && m[n.lower(list[i])] != PowerOf(power, list[i])
    ensures forall m' :: !Selects(n, list, power, m')
  {
    var k := n.lower(list[i]);
    assert Chosen(n, list[..i], k);
    var v :| Listing(n, list[..i], v) && n.lower(v) == k;
    assert Listing(n, list, v) && Listing(n, list, list[i]);
  }

  /** The changes among `keys` have been announced. */
  ghost predicate AnnouncesAmong<K(!new)>(before: Powers<K>, after: Powers<K>, keys: set<K>, updates: seq<Update<K>>) {
    && OneEach(updates)
    && (forall i :: 0 <= i < |updates| ==>
          updates[i].key in keys && Change(before, after, updates[i].key) == Some(updates[i].power))
    && (forall k :: k in keys && Change(before, after, k).Some? ==> Announced(updates, k))
  }

  lemma {:induction false} AnnounceOne<K(!new)>(
      before: Powers<K>, after: Powers<K>, keys: set<K>, updates: seq<Update<K>>, k: K)
    requires AnnouncesAmong(before, after, keys, updates) && k !in keys
    ensures
      var change := Change(before, after, k);
      AnnouncesAmong(before, after, keys + {k}, if change.Some? then updates + [Update(k, change.value)] else updates)
  {
    var change := Change(before, after, k);
    if change.Some? {
      var longer := updates + [Update(k, change.value)];
      assert longer[|updates|].key == k;
      forall other | other in keys && Change(before, after, other).Some? ensures Announced(longer, other) {
        var i :| 0 <= i < |updates| && updates[i].key == other;
        assert longer[i].key == other;
      }
    }
  }

  method Announce<K(==,!new)>(current: Powers<K>, state: Powers<K>) returns (updates: seq<Update<K>>)
    ensures Announces(current, state, updates)
  {
    updates := [];
    var left := state.Keys;
    while left != {}
      invariant left <= state.Keys
      invariant AnnouncesAmong(current, state, state.Keys - left, updates)
    {
      var k :| k in left;
      AnnounceOne(current, state, state.Keys - left, updates, k);
      assert state.Keys - (left - {k}) == state.Keys - left + {k};
      if Lookup(current, k) != Some(state[k]) {
        updates := updates + [Update(k, state[k])];
      }
      left := left - {k};
    }
    left := current.Keys;
    assert state.Keys - {} == state.Keys + (current.Keys - left);
    while left != {}
      invariant left <= current.Keys
      invariant AnnouncesAmong(current, state, state.Keys + (current.Keys - left), updates)
    {
      var k :| k in left;
      if k !in state {
        AnnounceOne(current, state, state.Keys + (current.Keys - left), updates, k);
        updates := updates + [Update(k, 0)];
      }
      assert state.Keys + (current.Keys - (left - {k})) == state.Keys + (current.Keys - left) + {k};
      assert k in state ==> state.Keys + (current.Keys - left) + {k} == state.Keys + (current.Keys - left);
      left := left - {k};
    }
  }

  /** The handler over a driver: what is on disk, and what reads see once the block's pending
      writes are laid over it. */
  class ValidatorHandler<K(==,!new)> {
    const naming: Naming<K>
    var disk: Store<K>
    var live: Store<K>

    constructor (naming: Naming<K>, store: Store<K>)
      ensures this.naming == naming && disk == store && live == store
    {
      this.naming, disk, live := naming, store, store;
    }

    method GetValidatorsFromState(committed: bool) returns (r: Option<Powers<K>>)
      ensures var s := if committed then disk else live; r == Selection(naming, s.active, s.power)
    {
      var s := if committed then disk else live;
      if s.active.NotAList? {
        return None;
      }
      var list, desired, i := s.active.keys, map[], 0;
      while i < |list|
        invariant 0 <= i <= |list|
        invariant Selects(naming, list[..i], s.power, desired)
      {
        var v := list[i];
        SelectsOneMore(naming, list, s.power, i, desired);
        if naming.formatted(v) {
          var power, key := PowerOf(s.power, v), naming.lower(v);
          if key in desired && desired[key] != power {
            ConflictRefuses(naming, list, s.power, i, desired);
            return None;
          }
          desired := desired[key := power];
        }
        i := i + 1;
      }
      assert list[..i] == list;
      SelectionUnique(naming, list, s.power, desired, Selection(naming, s.active, s.power).value);
      return Some(desired);
    }

    method CommittedValidators() returns (m: Powers<K>)
      ensures m == Effective(naming, disk)
    {
      if disk.effective.Some? {
        return disk.effective.value;
      }
      var chosen := GetValidatorsFromState(true);
      return if chosen.Some? then chosen.value else map[];
    }

    /** Persists the next effective set with the block's writes, and announces exactly the
        keys that change. */
    method BuildValidatorUpdates() returns (updates: seq<Update<K>>)
      modifies this`live
      ensures live == Persisted(naming, disk, old(live))
      ensures Announces(Effective(naming, disk), NextSet(naming, disk, old(live)), updates)
    {
      var chosen := GetValidatorsFromState(false);
      var state := if chosen.Some? then chosen.value else map[];
      var current := CommittedValidators();
      if state == map[] {
        state := current;
      }
      if state != map[] {
        live := live.(effective := Some(state));
      }
      updates := Announce(current, state);
    }

    /** The block's writes reach the disk. */
    method Commit()
      modifies this`disk
      ensures disk == live
    {
      disk := live;
    }
  }
}
