/** Splitting the chi a transaction used between validators, delegators, developers and
    the foundation, in exact arithmetic. */
module Rewards {
  import opened Basics

  datatype Kind = ValidatorReward | DelegatorReward | FoundationReward | DeveloperReward

  datatype Record<N> = Record(kind: Kind, recipient: N, value: real)

  /** What reward computation reads from contract state. */
  datatype Book<!N> = Book(
    power: N -> Option<real>,
    rewardKey: N -> Option<N>,
    commissionBps: N -> Option<real>,
    selfBond: N -> Option<real>,
    delegators: N -> seq<N>,
    delegation: (N, N) -> Option<real>,
    delegatorKey: (N, N) -> Option<N>,
    developer: N -> Option<N>)

  // ------------------------------------------------------------------- reading with defaults

  function Power<N>(b: Book<N>, v: N): (w: real)
    ensures w > 0.0
  {
    var p := b.power(v);
    if p.None? || p.value <= 0.0 then 1.0 else p.value
  }

  function OrElse<N>(o: Option<N>, default: N): N {
    if o.None? then default else o.value
  }

  function Commission<N>(b: Book<N>, v: N): (c: real)
    ensures 0.0 <= c <= 10000.0
  {
    var c := OrElse(b.commissionBps(v), 0.0);
    if c < 0.0 then 0.0 else if c > 10000.0 then 10000.0 else c
  }

  function AtLeastZero(o: Option<real>): (r: real)
    ensures r >= 0.0
  {
    if o.None? || o.value < 0.0 then 0.0 else o.value
  }

  /** A stake that shares a reward: who is paid, as what, and its weight. */
  datatype Stake<N> = Stake(recipient: N, weight: real)

  function Delegations<N>(b: Book<N>, v: N, delegators: seq<N>): (ws: seq<Stake<N>>)
    ensures forall i :: 0 <= i < |ws| ==> ws[i].weight > 0.0
  {
    if delegators == [] then [] else
      var d := delegators[0];
      var amount := AtLeastZero(b.delegation(d, v));
      (if amount > 0.0 then [Stake(OrElse(b.delegatorKey(d, v), d), amount)] else [])
      + Delegations(b, v, delegators[1..])
  }

  // -------------------------------------------------------------------------------- totals

  function Weight<N>(ws: seq<Stake<N>>): real {
    if ws == [] then 0.0 else Weight(ws[..|ws| - 1]) + ws[|ws| - 1].weight
  }

  function Total<N>(records: seq<Record<N>>): real {
    if records == [] then 0.0 else Total(records[..|records| - 1]) + records[|records| - 1].value
  }

  /** What one account receives. */
  function SumFor<N(==)>(records: seq<Record<N>>, who: N): real {
    if records == [] then 0.0 else
      var last := records[|records| - 1];
      SumFor(records[..|records| - 1], who) + if last.recipient == who then last.value else 0.0
  }

  function Amount<N>(m: map<N, real>, who: N): real {
    if who in m then m[who] else 0.0
  }

  /** The mapping pays every account the sum of its records. */
  ghost predicate Pays<N(!new)>(m: map<N, real>, records: seq<Record<N>>) {
    forall who :: Amount(m, who) == SumFor(records, who)
  }

  function Credit<N>(m: map<N, real>, who: N, value: real): map<N, real> {
    m[who := Amount(m, who) + value]
  }

  lemma {:induction false} CreditPays<N(!new)>(m: map<N, real>, records: seq<Record<N>>, r: Record<N>)
    requires Pays(m, records)
    ensures Pays(Credit(m, r.recipient, r.value), records + [r])
    ensures Total(records + [r]) == Total(records) + r.value
  {
    var longer := records + [r];
    assert longer[..|longer| - 1] == records;
  }

  lemma {:induction false} Appends<N(!new)>(a: seq<Record<N>>, b: seq<Record<N>>, who: N)
    ensures Total(a + b) == Total(a) + Total(b)
    ensures SumFor(a + b, who) == SumFor(a, who) + SumFor(b, who)
    decreases |b|
  {
    if b == [] {
      assert a + b == a;
    } else {
      assert (a + b)[..|a + b| - 1] == a + b[..|b| - 1];
      Appends(a, b[..|b| - 1], who);
    }
  }

  // --------------------------------------------------------------- proportional distribution

  /** A way to value weights that adds up, such as a part of a pool, or a price. */
  ghost predicate Additive(value: real -> real) {
    value(0.0) == 0.0 && forall x, y :: Adds(value, x, y)
  }

  ghost predicate Adds(value: real -> real, x: real, y: real) {
    value(x) + value(y) == value(x + y)
  }

  /** The part of `pool` that falls to a weight out of `base`. */
  function ProRata(pool: real, base: real): real -> real
    requires base != 0.0
  {
    (weight: real) => pool * weight / base
  }

  lemma {:induction false} ProRataAdditive(pool: real, base: real)
    requires base != 0.0
    ensures Additive(ProRata(pool, base)) && ProRata(pool, base)(base) == pool
  {
    forall x, y ensures Adds(ProRata(pool, base), x, y) {
      assert pool * (x + y) == pool * x + pool * y;
      assert (pool * x) / base + (pool * y) / base == (pool * x + pool * y) / base;
    }
  }

  lemma {:induction false} ProRataNonNegative(pool: real, base: real, weight: real)
    requires pool >= 0.0 && weight >= 0.0 && base > 0.0
    ensures ProRata(pool, base)(weight) >= 0.0
  {
    assert pool * weight >= 0.0;
  }

  /** The value of every weight. */
  function Parts<N>(value: real -> real, ws: seq<Stake<N>>): seq<real> {
    seq(|ws|, i requires 0 <= i < |ws| => value(ws[i].weight))
  }

  function Sum(values: seq<real>): real {
    if values == [] then 0.0 else Sum(values[..|values| - 1]) + values[|values| - 1]
  }

  /** What is left for the last of several values, once the others are taken off the sum. */
  lemma {:induction false} LastValue(values: seq<real>, n: nat)
    requires n < |values|
    ensures Sum(values[..n + 1]) == Sum(values[..n]) + values[n]
    ensures n == |values| - 1 ==> values[..n + 1] == values
  {
    assert values[..n + 1][..n] == values[..n];
  }

  lemma {:induction false} PartsSum<N>(value: real -> real, ws: seq<Stake<N>>)
    requires Additive(value)
    ensures Sum(Parts(value, ws)) == value(Weight(ws))
  {
    if ws != [] {
      var init := ws[..|ws| - 1];
      PartsSum(value, init);
      assert Parts(value, ws)[..|ws| - 1] == Parts(value, init);
      assert Adds(value, Weight(init), ws[|ws| - 1].weight);
    }
  }

  function Shares<N>(kind: Kind, ws: seq<Stake<N>>, values: seq<real>): seq<Record<N>>
    requires |values| == |ws|
  {
    seq(|ws|, i requires 0 <= i < |ws| => Record(kind, ws[i].recipient, values[i]))
  }

  lemma {:induction false} SharesTotal<N>(kind: Kind, ws: seq<Stake<N>>, values: seq<real>)
    requires |values| == |ws|
    ensures Total(Shares(kind, ws, values)) == Sum(values)
  {
    var rs := Shares(kind, ws, values);
    if ws != [] {
      var n := |ws| - 1;
      SharesTotal(kind, ws[..n], values[..n]);
      assert rs[..n] == Shares(kind, ws[..n], values[..n]);
    }
  }

  // ------------------------------------------------------------------------- one validator

  function CommissionOn<N>(b: Book<N>, v: N, reward: real): real {
    reward * Commission(b, v) / 10000.0
  }

  lemma {:induction false} CommissionWithin<N>(b: Book<N>, v: N, reward: real)
    requires reward >= 0.0
    ensures 0.0 <= CommissionOn(b, v, reward) <= reward
  {
    var bps := Commission(b, v);
    assert reward * bps >= 0.0;
    assert reward * bps <= reward * 10000.0;
  }

  /** What a validator's stakes share a reward by: its own bond and its delegations. */
  datatype Staking<N> = Staking(key: N, commission: real, bond: real, delegations: seq<Stake<N>>) {
    function Base(): real {
      bond + Weight(delegations)
    }
  }

  function StakingOf<N>(b: Book<N>, v: N, reward: real): (s: Staking<N>)
    ensures s.bond >= 0.0 && forall i :: 0 <= i < |s.delegations| ==> s.delegations[i].weight > 0.0
  {
    Staking(OrElse(b.rewardKey(v), v), CommissionOn(b, v, reward),
            AtLeastZero(b.selfBond(v)), Delegations(b, v, b.delegators(v)))
  }

  /** The operator's commission, and what its own bond earns. */
  function OperatorTotal<N>(s: Staking<N>, value: real -> real): real {
    if s.bond > 0.0 then s.commission + value(s.bond) else s.commission
  }

  function StakingRecords<N>(s: Staking<N>, value: real -> real): seq<Record<N>> {
    var operator := OperatorTotal(s, value);
    (if operator > 0.0 then [Record(ValidatorReward, s.key, operator)] else [])
    + Shares(DelegatorReward, s.delegations, Parts(value, s.delegations))
  }

  /** Each stake is paid its exact proportion, the operator its commission on top. */
  function ValidatorRecords<N>(b: Book<N>, v: N, reward: real): seq<Record<N>> {
    StakingPays(StakingOf(b, v, reward), reward)
  }

  function StakingPays<N>(s: Staking<N>, reward: real): seq<Record<N>> {
    if s.Base() <= 0.0 then [Record(ValidatorReward, s.key, reward)]
    else StakingRecords(s, ProRata(reward - s.commission, s.Base()))
  }

  lemma {:induction false} WeightPositive<N>(ws: seq<Stake<N>>)
    requires forall i :: 0 <= i < |ws| ==> ws[i].weight > 0.0
    ensures Weight(ws) >= 0.0 && (ws != [] ==> Weight(ws) > 0.0)
  {
    if ws != [] {
      WeightPositive(ws[..|ws| - 1]);
    }
  }

  /** What the operator and all delegators are due adds up to the reward. */
  lemma {:induction false} StakingAddsUp<N>(s: Staking<N>, value: real -> real, reward: real)
    requires Additive(value) && s.bond >= 0.0 && value(s.Base()) == reward - s.commission
    ensures OperatorTotal(s, value) + Sum(Parts(value, s.delegations)) == reward
  {
    PartsSum(value, s.delegations);
    assert Adds(value, s.bond, Weight(s.delegations));
  }

  ghost predicate NonNegative<N>(records: seq<Record<N>>) {
    forall i :: 0 <= i < |records| ==> records[i].value >= 0.0
  }

  lemma {:induction false} StakingConserves<N(!new)>(s: Staking<N>, value: real -> real, reward: real)
    requires Additive(value) && s.bond >= 0.0 && s.commission >= 0.0 && value(s.Base()) == reward - s.commission
    requires value(s.bond) >= 0.0
    requires forall i :: 0 <= i < |s.delegations| ==> value(s.delegations[i].weight) >= 0.0
    ensures Total(StakingRecords(s, value)) == reward && NonNegative(StakingRecords(s, value))
  {
    var operator, values := OperatorTotal(s, value), Parts(value, s.delegations);
    StakingAddsUp(s, value, reward);
    SharesTotal(DelegatorReward, s.delegations, values);
    var head := if operator > 0.0 then [Record(ValidatorReward, s.key, operator)] else [];
    assert operator > 0.0 ==> head[..0] == [];
    Appends(head, Shares(DelegatorReward, s.delegations, values), s.key);
  }

  /** Splitting what is left after commission by stake. */
  lemma {:induction false} SharedConserves<N(!new)>(s: Staking<N>, reward: real)
    requires 0.0 <= s.commission <= reward && s.bond >= 0.0 && s.Base() > 0.0
    requires forall i :: 0 <= i < |s.delegations| ==> s.delegations[i].weight > 0.0
    ensures
      var records := StakingRecords(s, ProRata(reward - s.commission, s.Base()));
      Total(records) == reward && NonNegative(records)
  {
    var pool, base := reward - s.commission, s.Base();
    var value := ProRata(pool, base);
    ProRataAdditive(pool, base);
    ProRataNonNegative(pool, base, s.bond);
    forall i | 0 <= i < |s.delegations| ensures value(s.delegations[i].weight) >= 0.0 {
      ProRataNonNegative(pool, base, s.delegations[i].weight);
    }
    StakingConserves(s, value, reward);
  }

  /** A validator's reward is paid out completely, and nobody is paid less than nothing. */
  lemma {:induction false} ValidatorConserves<N(!new)>(b: Book<N>, v: N, reward: real)
    requires reward >= 0.0
    ensures Total(ValidatorRecords(b, v, reward)) == reward
    ensures NonNegative(ValidatorRecords(b, v, reward))
  {
    var s := StakingOf(b, v, reward);
    if s.Base() <= 0.0 {
      assert [Record(ValidatorReward, s.key, reward)][..0] == [];
    } else {
      CommissionWithin(b, v, reward);
      SharedConserves(s, reward);
    }
  }

  /** How every pool is split: all recipients but the last get their computed part, the
      last one what is left of the pool.  What is left is its exact part too. */
  method SplitPool<N>(ws: seq<Stake<N>>, value: real -> real, pool: real) returns (shares: seq<real>)
    requires Sum(Parts(value, ws)) == pool
    ensures shares == Parts(value, ws)
  {
    shares := [];
    ghost var values := Parts(value, ws);
    var paid, i := 0.0, 0;
    while i < |ws|
      invariant 0 <= i <= |ws| == |values|
      invariant i < |ws| ==> paid == Sum(values[..i])
      invariant shares == values[..i]
    {
      LastValue(values, i);
      var share;
      if i == |ws| - 1 {
        share := pool - paid;
      } else {
        share := value(ws[i].weight);
        paid := paid + share;
      }
      shares, i := shares + [share], i + 1;
    }
  }

  method PayShares<N(==,!new)>(
      kind: Kind, ws: seq<Stake<N>>, shares: seq<real>, owed: map<N, real>, before: seq<Record<N>>)
      returns (mapping: map<N, real>, records: seq<Record<N>>)
    requires |shares| == |ws| && Pays(owed, before)
    ensures records == before + Shares(kind, ws, shares) && Pays(mapping, records)
  {
    mapping, records := owed, before;
    var i := 0;
    while i < |ws|
      invariant 0 <= i <= |ws|
      invariant records == before + Shares(kind, ws[..i], shares[..i])
      invariant Pays(mapping, records)
    {
      var record := Record(kind, ws[i].recipient, shares[i]);
      CreditPays(mapping, records, record);
      mapping, records := Credit(mapping, ws[i].recipient, shares[i]), records + [record];
      i := i + 1;
    }
    assert ws[..i] == ws && shares[..i] == shares;
  }

  method PayStaking<N(==,!new)>(
      s: Staking<N>, value: real -> real, reward: real) returns (mapping: map<N, real>, records: seq<Record<N>>)
    requires Additive(value) && s.bond >= 0.0 && value(s.Base()) == reward - s.commission
    ensures records == StakingRecords(s, value) && Pays(mapping, records)
  {
    mapping, records := map[], [];
    var operator := s.commission;
    if s.bond > 0.0 {
      operator := operator + value(s.bond);
    }
    if operator > 0.0 {
      CreditPays(mapping, records, Record(ValidatorReward, s.key, operator));
      mapping, records := Credit(mapping, s.key, operator), records + [Record(ValidatorReward, s.key, operator)];
    }
    StakingAddsUp(s, value, reward);
    var shares := SplitPool(s.delegations, value, reward - operator);
    mapping, records := PayShares(DelegatorReward, s.delegations, shares, mapping, records);
  }

  method BuildSingleValidatorRewards<N(==,!new)>(
      b: Book<N>, v: N, reward: real) returns (mapping: map<N, real>, records: seq<Record<N>>)
    ensures records == ValidatorRecords(b, v, reward)
    ensures Pays(mapping, records)
  {
    var s := StakingOf(b, v, reward);
    var base := s.Base();
    if base <= 0.0 {
      CreditPays(map[], [], Record(ValidatorReward, s.key, reward));
      assert [] + [Record(ValidatorReward, s.key, reward)] == [Record(ValidatorReward, s.key, reward)];
      return Credit(map[], s.key, reward), [Record(ValidatorReward, s.key, reward)];
    }
    ProRataAdditive(reward - s.commission, base);
    mapping, records := PayStaking(s, ProRata(reward - s.commission, base), reward);
  }
}
