/** Executing a block's transactions one by one, and applying results computed ahead of
    their turn on a snapshot. */
module Speculation {
  import opened Basics

  /** Stored values: numbers, and everything else. */
  datatype Value<T> = Num(n: real) | Data(data: T)

  type State<K(==), T> = map<K, Value<T>>

  /** Writes by key; `None` deletes. */
  type Writes<K(==), T> = map<K, Option<Value<T>>>

  datatype Output<K, T> = Output(status: int, writes: Writes<K, T>, chiUsed: real)

  /** The foreign parts: contract execution and reward computation, with the keys they look
      at (present or not), where balances and the chi cost are kept, and how stored values that
      are not numbers count as empty, as balances and as decimals. */
  datatype Machine<!Tx, !K, !T> = Machine(
    run: (Tx, Value<T>, State<K, T>) -> Option<Output<K, T>>,
    runReads: (Tx, Value<T>, State<K, T>, K) -> bool,
    rewards: (Tx, Output<K, T>, State<K, T>) -> Option<map<K, real>>,
    rewardReads: (Tx, Output<K, T>, State<K, T>, K) -> bool,
    balanceKey: Tx -> K, chiKey: K, empty: T -> bool,
    coerce: T -> Option<real>, decimal: T -> Option<real>,
    chargeFees: bool, distributeRewards: bool)

  // ------------------------------------------------------------------ what a transaction does

  /** Before rewards are added to current balances. */
  datatype Effect<K, T> = Effect(base: Writes<K, T>, deltas: map<K, real>)

  predicate Falsy<Tx, K, T>(m: Machine<Tx, K, T>, v: Value<T>) {
    match v
    case Num(n) => n == 0.0
    case Data(d) => m.empty(d)
  }

  function ChiCost<Tx, K, T>(m: Machine<Tx, K, T>, s: State<K, T>): Value<T> {
    if m.chiKey !in s || Falsy(m, s[m.chiKey]) then Num(1.0) else s[m.chiKey]
  }

  /** A stored balance as a number: a missing one is zero, texts and fixed-point records are
      converted; `None` when that raises. */
  function Balance<Tx, K, T>(m: Machine<Tx, K, T>, stored: Option<Value<T>>): Option<real> {
    if stored.None? then Some(0.0)
    else match stored.value
      case Num(n) => Some(n)
      case Data(d) => m.coerce(d)
  }

  /** The chi cost as a divisor; `None` when it is no decimal or zero. */
  function Rate<Tx, K, T>(m: Machine<Tx, K, T>, chi: Value<T>): Option<real> {
    var rate := if chi.Num? then Some(chi.n) else m.decimal(chi.data);
    if rate == Some(0.0) then None else rate
  }

  /** The sender pays for what it used, down to nothing; `None` when the arithmetic raises. */
  function Metering<Tx, K, T>(
      m: Machine<Tx, K, T>, tx: Tx, stored: Option<Value<T>>, chiUsed: real, chi: Value<T>): Option<Writes<K, T>> {
    if chiUsed <= 0.0 then Some(map[])
    else if Rate(m, chi).None? || Balance(m, stored).None? then None
    else
      var left := Balance(m, stored).value - chiUsed / Rate(m, chi).value;
      Some(map[m.balanceKey(tx) := Some(Num(if left > 0.0 then left else 0.0))])
  }

  function BaseWrites<Tx, K, T>(
      m: Machine<Tx, K, T>, tx: Tx, chi: Value<T>, out: Output<K, T>, s: State<K, T>): Option<Writes<K, T>> {
    if out.status == 0 then Some(out.writes)
    else if !m.chargeFees then Some(map[])
    else Metering(m, tx, Lookup(s, m.balanceKey(tx)), out.chiUsed, chi)
  }

  function Deltas<Tx, K, T>(m: Machine<Tx, K, T>, tx: Tx, out: Output<K, T>, s: State<K, T>): Option<map<K, real>> {
    if m.distributeRewards && out.status == 0 then m.rewards(tx, out, s) else Some(map[])
  }

  function EffectOf<Tx, K, T>(m: Machine<Tx, K, T>, tx: Tx, chi: Value<T>, s: State<K, T>): Option<Effect<K, T>> {
    var out := m.run(tx, chi, s);
    if out.None? then None else
      var base, deltas := BaseWrites(m, tx, chi, out.value, s), Deltas(m, tx, out.value, s);
      if base.None? || deltas.None? then None else Some(Effect(base.value, deltas.value))
  }

  // ---------------------------------------------------------------- what it depends on

  ghost predicate Agree<K(!new), T>(looked: K -> bool, s: State<K, T>, s': State<K, T>) {
    forall k :: looked(k) ==> Lookup(s, k) == Lookup(s', k)
  }

  /** Execution and rewards are functions of the keys they read. */
  ghost predicate Lawful<Tx(!new), K(!new), T(!new)>(m: Machine<Tx, K, T>) {
    && (forall tx, chi, s, s' :: RunLaw(m, tx, chi, s, s'))
    && (forall tx, out, s, s' :: RewardLaw(m, tx, out, s, s'))
  }

  ghost predicate RunLaw<Tx(!new), K(!new), T(!new)>(
      m: Machine<Tx, K, T>, tx: Tx, chi: Value<T>, s: State<K, T>, s': State<K, T>) {
    Agree(k => m.runReads(tx, chi, s, k), s, s') ==> m.run(tx, chi, s') == m.run(tx, chi, s)
  }

  ghost predicate RewardLaw<Tx(!new), K(!new), T(!new)>(
      m: Machine<Tx, K, T>, tx: Tx, out: Output<K, T>, s: State<K, T>, s': State<K, T>) {
    Agree(k => m.rewardReads(tx, out, s, k), s, s') ==> m.rewards(tx, out, s') == m.rewards(tx, out, s)
  }

  /** Every key the transaction looked at on `s`: for the chi cost, in execution, for the
      fee of a failed transaction, for the rewards of a successful one. */
  predicate Reads<Tx, K(==), T>(m: Machine<Tx, K, T>, tx: Tx, s: State<K, T>, k: K) {
    var chi := ChiCost(m, s);
    var out := m.run(tx, chi, s);
    || k == m.chiKey
    || m.runReads(tx, chi, s, k)
    || (out.Some? && out.value.status != 0 && k == m.balanceKey(tx))
    || (out.Some? && out.value.status == 0 && m.rewardReads(tx, out.value, s, k))
  }

  ghost predicate AgreeOnReads<Tx(!new), K(!new), T>(m: Machine<Tx, K, T>, tx: Tx, s: State<K, T>, s': State<K, T>) {
    forall k :: Reads(m, tx, s, k) ==> Lookup(s, k) == Lookup(s', k)
  }

  /** Where a later state agrees with the snapshot on what was read, the transaction has the
      same effect on it. */
  lemma {:induction false} EffectCarriesOver<Tx(!new), K(!new), T(!new)>(
      m: Machine<Tx, K, T>, tx: Tx, snapshot: State<K, T>, live: State<K, T>)
    requires Lawful(m) && AgreeOnReads(m, tx, snapshot, live)
    ensures ChiCost(m, live) == ChiCost(m, snapshot)
    ensures EffectOf(m, tx, ChiCost(m, live), live) == EffectOf(m, tx, ChiCost(m, snapshot), snapshot)
  {
    assert Reads(m, tx, snapshot, m.chiKey);
    assert Lookup(snapshot, m.chiKey) == Lookup(live, m.chiKey);
    var chi := ChiCost(m, snapshot);
    var out := m.run(tx, chi, snapshot);
    assert Agree(k => m.runReads(tx, chi, snapshot, k), snapshot, live) by {
      forall k | m.runReads(tx, chi, snapshot, k) ensures Lookup(snapshot, k) == Lookup(live, k) {
        assert Reads(m, tx, snapshot, k);
      }
    }
    assert RunLaw(m, tx, chi, snapshot, live);
    if out.Some? && out.value.status == 0 {
      assert Agree(k => m.rewardReads(tx, out.value, snapshot, k), snapshot, live) by {
        forall k | m.rewardReads(tx, out.value, snapshot, k) ensures Lookup(snapshot, k) == Lookup(live, k) {
          assert Reads(m, tx, snapshot, k);
        }
      }
      assert RewardLaw(m, tx, out.value, snapshot, live);
    } else if out.Some? {
      assert Reads(m, tx, snapshot, m.balanceKey(tx));
    }
  }

  // -------------------------------------------------------------------- materialising writes

  /** A reward goes on top of the transaction's own write, or of the current balance; `None`
      when what is there is not a number. */
  function Topped<K, T>(s: State<K, T>, base: Writes<K, T>, k: K, delta: real): Option<Value<T>> {
    var current := if k in base then base[k] else if k in s then Some(s[k]) else Some(Num(0.0));
    if current.None? || !current.value.Num? then None else Some(Num(current.value.n + delta))
  }

  predicate Addable<K(==), T>(s: State<K, T>, e: Effect<K, T>) {
    forall k :: k in e.deltas ==> Topped(s, e.base, k, e.deltas[k]).Some?
  }

  function Materialized<K, T>(s: State<K, T>, e: Effect<K, T>): Option<Writes<K, T>> {
    if !Addable(s, e) then None
    else Some(map k | k in e.base.Keys + e.deltas.Keys ::
                if k in e.deltas then Topped(s, e.base, k, e.deltas[k]) else e.base[k])
  }

  function ApplyWrites<K, T>(s: State<K, T>, w: Writes<K, T>): State<K, T> {
    map k | k in s.Keys + w.Keys && (k in w ==> w[k].Some?) :: if k in w then w[k].value else s[k]
  }

  /** Rewards add to whatever the balance has become by the time they are applied. */
  lemma {:induction false} RewardsAccumulate<K(!new), T>(s: State<K, T>, e: Effect<K, T>, k: K)
    requires Materialized(s, e).Some? && k in e.deltas && k !in e.base
    requires k in s ==> s[k].Num?
    ensures
      var s' := ApplyWrites(s, Materialized(s, e).value);
      k in s' && s'[k] == Num((if k in s then s[k].n else 0.0) + e.deltas[k])
  {
    assert Topped(s, e.base, k, e.deltas[k]).Some?;
  }

  lemma {:induction false} WithoutRewards<K, T>(s: State<K, T>, e: Effect<K, T>)
    requires e.deltas == map[]
    ensures Materialized(s, e) == Some(e.base)
  {
    assert Addable(s, e);
    assert Materialized(s, e).value == e.base;
  }

  // -------------------------------------------------------------------------- the processor

  /** The live driver and the chi cost remembered within the block. */
  datatype Processor<K(==), T> = Processor(state: State<K, T>, cache: Option<Value<T>>)

  function CachedChi<Tx, K, T>(m: Machine<Tx, K, T>, p: Processor<K, T>): Value<T> {
    if p.cache.Some? then p.cache.value else ChiCost(m, p.state)
  }

  ghost predicate Coherent<Tx, K, T>(m: Machine<Tx, K, T>, p: Processor<K, T>) {
    CachedChi(m, p) == ChiCost(m, p.state)
  }

  function NewCache<Tx, K, T>(m: Machine<Tx, K, T>, cache: Option<Value<T>>, base: Writes<K, T>): Option<Value<T>> {
    if m.chiKey in base then base[m.chiKey] else cache
  }

  /** Applying an effect to the live state; `None` when adding the rewards raises. */
  function Applied<Tx, K, T>(m: Machine<Tx, K, T>, p: Processor<K, T>, e: Effect<K, T>): Option<Processor<K, T>> {
    var w := Materialized(p.state, e);
    if w.None? then None else Some(Processor(ApplyWrites(p.state, w.value), NewCache(m, p.cache, e.base)))
  }

  /** A transaction processed in its turn; one that raises writes nothing. */
  function Serial<Tx, K, T>(m: Machine<Tx, K, T>, p: Processor<K, T>, tx: Tx): Processor<K, T> {
    var chi := CachedChi(m, p);
    var q := p.(cache := Some(chi));
    var e := EffectOf(m, tx, chi, p.state);
    if e.None? || Applied(m, q, e.value).None? then q else Applied(m, q, e.value).value
  }

  // ----------------------------------------------------- what a transaction does to the state

  /** Nothing but `k` differs. */
  ghost predicate OnlyAt<K(!new), T>(k: K, s: State<K, T>, s': State<K, T>) {
    forall other :: other != k ==> Lookup(s, other) == Lookup(s', other)
  }

  /** The stored balance stands for this number. */
  ghost predicate IsBalance<Tx, K, T>(m: Machine<Tx, K, T>, stored: Option<Value<T>>, amount: real) {
    || (stored.None? && amount == 0.0)
    || stored == Some(Num(amount))
    || (stored.Some? && stored.value.Data? && m.coerce(stored.value.data) == Some(amount))
  }

  /** The chi cost stands for this many chi per unit of currency. */
  ghost predicate IsRate<Tx, K, T>(m: Machine<Tx, K, T>, chi: Value<T>, rate: real) {
    chi == Num(rate) || (chi.Data? && m.decimal(chi.data) == Some(rate))
  }

  lemma {:induction false} ChargedExactly(before: real, used: real, rate: real)
    requires rate > 0.0
    ensures used <= before * rate ==> (before - (before - used / rate)) * rate == used && before - used / rate >= 0.0
    ensures used > before * rate ==> before - used / rate < 0.0
  {
    assert used / rate * rate == used;
    if used <= before * rate {
      assert used / rate <= before;
    } else {
      assert used / rate > before;
    }
  }

  /** A failed transaction that used chi: the sender pays exactly what it used at the chi cost,
      or all it has if that is less, and nothing else changes. */
  lemma {:induction false} FailedTransactionPays<Tx(!new), K(!new), T(!new)>(
      m: Machine<Tx, K, T>, p: Processor<K, T>, tx: Tx, out: Output<K, T>, before: real, rate: real)
    requires m.run(tx, CachedChi(m, p), p.state) == Some(out) && out.status != 0
    requires m.chargeFees && out.chiUsed > 0.0 && rate > 0.0
    requires IsBalance(m, Lookup(p.state, m.balanceKey(tx)), before) && IsRate(m, CachedChi(m, p), rate)
    ensures OnlyAt(m.balanceKey(tx), p.state, Serial(m, p, tx).state)
    ensures
      var after := Lookup(Serial(m, p, tx).state, m.balanceKey(tx));
      && after.Some? && after.value.Num?
      && (out.chiUsed <= before * rate ==> (before - after.value.n) * rate == out.chiUsed)
      && (out.chiUsed > before * rate ==> after.value.n == 0.0)
  {
    var left := before - out.chiUsed / rate;
    var e := Effect(map[m.balanceKey(tx) := Some(Num(if left > 0.0 then left else 0.0))], map[]);
    assert EffectOf(m, tx, CachedChi(m, p), p.state) == Some(e);
    WithoutRewards(p.state, e);
    ChargedExactly(before, out.chiUsed, rate);
  }

  /** A failed transaction that is not charged, or used nothing, changes nothing. */
  lemma {:induction false} FailedTransactionFree<Tx(!new), K(!new), T(!new)>(
      m: Machine<Tx, K, T>, p: Processor<K, T>, tx: Tx, out: Output<K, T>)
    requires m.run(tx, CachedChi(m, p), p.state) == Some(out) && out.status != 0
    requires !m.chargeFees || out.chiUsed <= 0.0
    ensures Serial(m, p, tx).state == p.state
  {
    var e: Effect<K, T> := Effect(map[], map[]);
    assert EffectOf(m, tx, CachedChi(m, p), p.state) == Some(e);
    WithoutRewards(p.state, e);
    assert ApplyWrites(p.state, map[]) == p.state;
  }

  /** What a key holds after a successful transaction: its own write, else the old value, and
      its reward on top. */
  ghost predicate Succeeded<K, T>(
      out: Output<K, T>, deltas: map<K, real>, before: Option<Value<T>>, k: K, after: Option<Value<T>>) {
    var own := if k in out.writes then out.writes[k] else before;
    if k !in deltas then after == own
    else
      && after.Some? && after.value.Num?
      && after.value.n - deltas[k] == (if own.None? then 0.0 else if own.value.Num? then own.value.n else 0.0)
  }

  /** A successful transaction whose rewards can be added: every key holds what it should. */
  lemma {:induction false} SuccessfulTransactionWrites<Tx(!new), K(!new), T(!new)>(
      m: Machine<Tx, K, T>, p: Processor<K, T>, tx: Tx, out: Output<K, T>, deltas: map<K, real>, k: K)
    requires m.run(tx, CachedChi(m, p), p.state) == Some(out) && out.status == 0
    requires if m.distributeRewards then m.rewards(tx, out, p.state) == Some(deltas) else deltas == map[]
    requires Addable(p.state, Effect(out.writes, deltas))
    ensures Succeeded(out, deltas, Lookup(p.state, k), k, Lookup(Serial(m, p, tx).state, k))
  {
    var e := Effect(out.writes, deltas);
    assert EffectOf(m, tx, CachedChi(m, p), p.state) == Some(e);
    assert k in deltas ==> Topped(p.state, e.base, k, deltas[k]).Some?;
  }

  /** Rewards can be added exactly when no rewarded key is deleted by the transaction or holds
      something that is not a number. */
  lemma {:induction false} AddableExactly<K(!new), T>(s: State<K, T>, e: Effect<K, T>)
    ensures Addable(s, e) <==> forall k :: k in e.deltas ==>
      (if k in e.base then e.base[k].Some? && e.base[k].value.Num? else k in s ==> s[k].Num?)
  {
    forall k | k in e.deltas
      ensures Topped(s, e.base, k, e.deltas[k]).Some? <==>
        (if k in e.base then e.base[k].Some? && e.base[k].value.Num? else k in s ==> s[k].Num?)
    {
    }
  }

  /** The chi cost is not set to something that reads back as missing. */
  predicate KeepsChi<Tx, K, T>(m: Machine<Tx, K, T>, base: Writes<K, T>) {
    m.chiKey in base && base[m.chiKey].Some? ==> !Falsy(m, base[m.chiKey].value)
  }

  /** The remembered chi cost stays what a fresh read would give exactly when the block's
      transactions do not set it to zero (or another empty value). */
  lemma {:induction false} CoherenceExact<Tx, K, T>(m: Machine<Tx, K, T>, p: Processor<K, T>, e: Effect<K, T>)
    requires Coherent(m, p) && m.chiKey !in e.deltas && Applied(m, p, e).Some?
    ensures Coherent(m, Applied(m, p, e).value) <==> KeepsChi(m, e.base)
  {
    var w := Materialized(p.state, e).value;
    var s' := ApplyWrites(p.state, w);
    assert m.chiKey in w <==> m.chiKey in e.base;
    if m.chiKey in e.base {
      assert w[m.chiKey] == e.base[m.chiKey];
    }
  }

  // ------------------------------------------------------------------------------ the block

  /** A transaction, and the snapshot it was processed on if its result was computed ahead. */
  datatype Turn<Tx, K(==), T> = Turn(tx: Tx, ahead: Option<State<K, T>>)

  /** What the transaction does when processed on a snapshot by a worker with no memory;
      nothing when that raises. */
  function Speculated<Tx, K, T>(m: Machine<Tx, K, T>, tx: Tx, snapshot: State<K, T>): Option<Effect<K, T>> {
    var e := EffectOf(m, tx, ChiCost(m, snapshot), snapshot);
    if e.Some? && Materialized(snapshot, e.value).Some? then e else None
  }

  /** A result computed ahead is applied; without one the transaction runs in its turn. */
  function Parallel<Tx, K, T>(m: Machine<Tx, K, T>, p: Processor<K, T>, turn: Turn<Tx, K, T>): Option<Processor<K, T>> {
    if turn.ahead.None? then Some(Serial(m, p, turn.tx)) else
      var e := Speculated(m, turn.tx, turn.ahead.value);
      if e.None? then Some(Serial(m, p, turn.tx)) else Applied(m, p, e.value)
  }

  ghost predicate Respected<Tx(!new), K(!new), T(!new)>(m: Machine<Tx, K, T>, s: State<K, T>, turn: Turn<Tx, K, T>) {
    var e := EffectOf(m, turn.tx, ChiCost(m, s), s);
    && (turn.ahead.Some? ==> AgreeOnReads(m, turn.tx, turn.ahead.value, s))
    && (e.Some? ==> KeepsChi(m, e.value.base) && m.chiKey !in e.value.deltas)
  }

  lemma {:induction false} SerialCoherent<Tx(!new), K(!new), T(!new)>(m: Machine<Tx, K, T>, p: Processor<K, T>, tx: Tx)
    requires Coherent(m, p) && Respected(m, p.state, Turn(tx, None))
    ensures Coherent(m, Serial(m, p, tx))
  {
    var q := p.(cache := Some(CachedChi(m, p)));
    var e := EffectOf(m, tx, CachedChi(m, p), p.state);
    if e.Some? && Applied(m, q, e.value).Some? {
      CoherenceExact(m, q, e.value);
    }
  }

  /** One turn: the same state as in the serial run, whatever each has remembered; adding
      the rewards raises exactly where the serial run has the transaction write nothing. */
  lemma {:induction false} TurnMatches<Tx(!new), K(!new), T(!new)>(
      m: Machine<Tx, K, T>, p: Processor<K, T>, q: Processor<K, T>, turn: Turn<Tx, K, T>)
    requires Lawful(m) && Coherent(m, p) && Coherent(m, q) && p.state == q.state && Respected(m, p.state, turn)
    ensures Coherent(m, Serial(m, q, turn.tx))
    ensures
      var r := Parallel(m, p, turn);
      if r.Some? then r.value.state == Serial(m, q, turn.tx).state && Coherent(m, r.value)
      else Serial(m, q, turn.tx).state == q.state
  {
    SerialCoherent(m, p, turn.tx);
    SerialCoherent(m, q, turn.tx);
    if turn.ahead.Some? {
      EffectCarriesOver(m, turn.tx, turn.ahead.value, p.state);
      var e := Speculated(m, turn.tx, turn.ahead.value);
      if e.Some? && Applied(m, p, e.value).Some? {
        CoherenceExact(m, p, e.value);
      }
    }
  }

  function RunSerial<Tx, K, T>(m: Machine<Tx, K, T>, p: Processor<K, T>, turns: seq<Turn<Tx, K, T>>): Processor<K, T> {
    if turns == [] then p else Serial(m, RunSerial(m, p, turns[..|turns| - 1]), turns[|turns| - 1].tx)
  }

  function RunParallel<Tx, K, T>(
      m: Machine<Tx, K, T>, p: Processor<K, T>, turns: seq<Turn<Tx, K, T>>): Option<Processor<K, T>> {
    if turns == [] then Some(p) else
      var q := RunParallel(m, p, turns[..|turns| - 1]);
      if q.None? then None else Parallel(m, q.value, turns[|turns| - 1])
  }

  /** Every result applied had, by its turn, agreed with its snapshot on all it read. */
  ghost predicate AllRespected<Tx(!new), K(!new), T(!new)>(
      m: Machine<Tx, K, T>, p: Processor<K, T>, turns: seq<Turn<Tx, K, T>>) {
    forall i :: 0 <= i < |turns| ==> Respected(m, RunSerial(m, p, turns[..i]).state, turns[i])
  }

  lemma {:induction false} RespectedBefore<Tx(!new), K(!new), T(!new)>(
      m: Machine<Tx, K, T>, p: Processor<K, T>, turns: seq<Turn<Tx, K, T>>)
    requires AllRespected(m, p, turns) && turns != []
    ensures AllRespected(m, p, turns[..|turns| - 1])
    ensures Respected(m, RunSerial(m, p, turns[..|turns| - 1]).state, turns[|turns| - 1])
  {
    var n := |turns| - 1;
    forall i | 0 <= i < n ensures Respected(m, RunSerial(m, p, turns[..n][..i]).state, turns[..n][i]) {
      assert turns[..n][..i] == turns[..i];
    }
  }

  /** A block executed ahead of its turns leaves the state of the block executed serially. */
  lemma {:induction false} SpeculationEqualsSerial<Tx(!new), K(!new), T(!new)>(
      m: Machine<Tx, K, T>, p: Processor<K, T>, turns: seq<Turn<Tx, K, T>>)
    requires Lawful(m) && Coherent(m, p) && AllRespected(m, p, turns)
    ensures Coherent(m, RunSerial(m, p, turns))
    ensures
      var r := RunParallel(m, p, turns);
      r.Some? ==> r.value.state == RunSerial(m, p, turns).state && Coherent(m, r.value)
  {
    if turns != [] {
      var n := |turns| - 1;
      RespectedBefore(m, p, turns);
      SpeculationEqualsSerial(m, p, turns[..n]);
      var serial := RunSerial(m, p, turns[..n]);
      var ahead := RunParallel(m, p, turns[..n]);
      if ahead.Some? {
        TurnMatches(m, ahead.value, serial, turns[n]);
      } else {
        TurnMatches(m, serial, serial, turns[n]);
      }
    }
  }

  // ------------------------------------------------------------- a chi cost of zero in a block

  /** A block of two: the first transaction sets the chi cost to zero, the second fails after
      using one chi, and was processed ahead on exactly the state it meets in its turn. */
  function ZeroCostMachine(): Machine<bool, string, ()> {
    Machine((setter: bool, chi, s) =>
              if setter then Some(Output(0, map["chi" := Some(Num(0.0))], 0.0)) else Some(Output(1, map[], 1.0)),
            (setter: bool, chi, s, k) => false,
            (setter: bool, out, s) => Some(map[]),
            (setter: bool, out, s, k) => false,
            (setter: bool) => "sender", "chi", d => true, d => None, d => None, true, true)
  }

  function Funded(): State<string, ()> {
    map["sender" := Num(5.0)]
  }

  function ZeroCost(): State<string, ()> {
    map["sender" := Num(5.0), "chi" := Num(0.0)]
  }

  lemma {:induction false} ZeroCostSet()
    ensures Serial(ZeroCostMachine(), Processor(Funded(), None), true) == Processor(ZeroCost(), Some(Num(0.0)))
  {
    var m, p := ZeroCostMachine(), Processor(Funded(), Some(Num(1.0)));
    var e := Effect(map["chi" := Some(Num(0.0))], map[]);
    assert EffectOf(m, true, Num(1.0), Funded()) == Some(e);
    WithoutRewards(Funded(), e);
    assert ApplyWrites(Funded(), e.base) == ZeroCost();
  }

  lemma {:induction false} ZeroCostInTurn()
    ensures Serial(ZeroCostMachine(), Processor(ZeroCost(), Some(Num(0.0))), false).state == ZeroCost()
  {
    assert EffectOf(ZeroCostMachine(), false, Num(0.0), ZeroCost()).None?;
  }

  lemma {:induction false} ZeroCostAhead()
    ensures
      var r := Parallel(ZeroCostMachine(), Processor(ZeroCost(), Some(Num(0.0))), Turn(false, Some(ZeroCost())));
      r.Some? && r.value.state == ZeroCost()["sender" := Num(4.0)]
  {
    var m := ZeroCostMachine();
    var e: Effect<string, ()> := Effect(map["sender" := Some(Num(4.0))], map[]);
    assert ChiCost(m, ZeroCost()) == Num(1.0);
    assert EffectOf(m, false, Num(1.0), ZeroCost()) == Some(e);
    WithoutRewards(ZeroCost(), e);
    assert ApplyWrites(ZeroCost(), e.base) == ZeroCost()["sender" := Num(4.0)];
  }

  lemma {:induction false} TwoTurns<Tx, K, T>(
      m: Machine<Tx, K, T>, p: Processor<K, T>, a: Turn<Tx, K, T>, b: Turn<Tx, K, T>)
    requires a.ahead.None?
    ensures RunSerial(m, p, [a, b]) == Serial(m, Serial(m, p, a.tx), b.tx)
    ensures RunParallel(m, p, [a, b]) == Parallel(m, Serial(m, p, a.tx), b)
  {
    assert [a, b][..1] == [a] && [a][..0] == [];
    assert RunSerial(m, p, [a]) == Serial(m, p, a.tx);
    assert RunParallel(m, p, [a]) == Some(Serial(m, p, a.tx));
  }

  /** Run in its turn it is not charged, because dividing by the remembered zero raises; run
      ahead it is charged at rate one.  Its snapshot is the very state it meets: only the chi
      cost written before it is empty. */
  lemma {:induction false} ZeroChiCostDiverges()
    ensures
      var m, start := ZeroCostMachine(), Processor(Funded(), None);
      var turns := [Turn(true, None), Turn(false, Some(ZeroCost()))];
      && Lawful(m) && Coherent(m, start) && Serial(m, start, true).state == ZeroCost()
      && RunSerial(m, start, turns).state == ZeroCost()
      && RunParallel(m, start, turns).Some?
      && RunParallel(m, start, turns).value.state == ZeroCost()["sender" := Num(4.0)] != ZeroCost()
  {
    ZeroCostSet();
    ZeroCostInTurn();
    ZeroCostAhead();
    TwoTurns(ZeroCostMachine(), Processor(Funded(), None), Turn(true, None), Turn(false, Some(ZeroCost())));
    assert ZeroCost()["sender" := Num(4.0)]["sender"] != ZeroCost()["sender"];
  }

  // --------------------------------------------------------------------- the processor itself

  class TxProcessor<!Tx, !K(==), !T(==)> {
    const machine: Machine<Tx, K, T>
    var driver: State<K, T>
    var cachedChi: Option<Value<T>>

    constructor (machine: Machine<Tx, K, T>, driver: State<K, T>)
      ensures this.machine == machine && Model() == Processor(driver, None)
    {
      this.machine, this.driver, cachedChi := machine, driver, None;
    }

    ghost function Model(): Processor<K, T>
      reads this
    {
      Processor(driver, cachedChi)
    }

    /** Adds every reward to the transaction's own write or to the current balance. */
    method MaterializeWrites(e: Effect<K, T>) returns (r: Option<Writes<K, T>>)
      ensures r == Materialized(driver, e)
    {
      var writes, left := e.base, e.deltas.Keys;
      while left != {}
        invariant left <= e.deltas.Keys
        invariant writes.Keys == e.base.Keys + (e.deltas.Keys - left)
        invariant forall k :: k in e.deltas && k !in left ==>
          Topped(driver, e.base, k, e.deltas[k]).Some? && writes[k] == Topped(driver, e.base, k, e.deltas[k])
        invariant forall k :: k in e.base && (k in left || k !in e.deltas) ==> writes[k] == e.base[k]
      {
        var k :| k in left;
        var current := if k in writes then writes[k] else if k in driver then Some(driver[k]) else Some(Num(0.0));
        if current.None? || !current.value.Num? {
          assert !Addable(driver, e);
          return None;
        }
        writes := writes[k := Some(Num(current.value.n + e.deltas[k]))];
        left := left - {k};
      }
      assert Addable(driver, e);
      assert writes == Materialized(driver, e).value;
      return Some(writes);
    }

    method GetChiCost() returns (chi: Value<T>)
      modifies this`cachedChi
      ensures chi == CachedChi(machine, old(Model())) && cachedChi == Some(chi)
      ensures old(cachedChi).Some? ==> chi == old(cachedChi).value
      ensures
        var stored := Lookup(driver, machine.chiKey);
        var missing :=
          stored.None? || stored == Some(Num(0.0)) || (stored.value.Data? && machine.empty(stored.value.data));
        old(cachedChi).None? ==> chi == if missing then Num(1.0) else stored.value
    {
      if cachedChi.None? {
        cachedChi := Some(ChiCost(machine, driver));
      }
      return cachedChi.value;
    }

    /** A transaction in its turn. */
    method ProcessTx(tx: Tx)
      modifies this
      ensures Model() == Serial(machine, old(Model()), tx)
    {
      var chi := GetChiCost();
      var e := EffectOf(machine, tx, chi, driver);
      if e.None? {
        return;
      }
      var writes := MaterializeWrites(e.value);
      if writes.None? {
        return;
      }
      driver := ApplyWrites(driver, writes.value);
      cachedChi := NewCache(machine, cachedChi, e.value.base);
    }

    /** A result computed ahead: its writes are worked out anew on the live state. */
    method ApplySpeculativeOutput(e: Effect<K, T>) returns (ok: bool)
      modifies this
      ensures ok == Applied(machine, old(Model()), e).Some?
      ensures Model() == if ok then Applied(machine, old(Model()), e).value else old(Model())
    {
      var writes := MaterializeWrites(e);
      if writes.None? {
        return false;
      }
      cachedChi := NewCache(machine, cachedChi, e.base);
      driver := ApplyWrites(driver, writes.value);
      return true;
    }
  }
}
