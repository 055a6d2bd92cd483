/** Who is paid what: the reward records of a transaction against a reference that reads
    contract state directly and says, for any choice of kinds and accounts, what they are due. */
module RewardPayees {
  import opened Basics
  import opened Rewards
  import opened RewardSplit

  /** A choice of records by kind and recipient. */
  type Choice<!N> = (Kind, N) -> bool

  function SumWhere<N>(records: seq<Record<N>>, keep: Choice<N>): real {
    if records == [] then 0.0 else
      var last := records[|records| - 1];
      SumWhere(records[..|records| - 1], keep) + if keep(last.kind, last.recipient) then last.value else 0.0
  }

  // -------------------------------------------------------------------------- the reference

  /** A stored amount counts as nothing when missing or negative. */
  function Stored(o: Option<real>): real {
    match o
    case None => 0.0
    case Some(x) => if x > 0.0 then x else 0.0
  }

  function VotingPower<N>(b: Book<N>, v: N): real {
    match b.power(v)
    case None => 1.0
    case Some(x) => if x > 0.0 then x else 1.0
  }

  function TotalPower<N>(b: Book<N>, validators: seq<N>): real {
    if validators == [] then 0.0
    else TotalPower(b, validators[..|validators| - 1]) + VotingPower(b, validators[|validators| - 1])
  }

  /** The operator's commission as a fraction of the reward. */
  function CommissionRate<N>(b: Book<N>, v: N): real {
    match b.commissionBps(v)
    case None => 0.0
    case Some(x) => if x <= 0.0 then 0.0 else if x >= 10000.0 then 1.0 else x / 10000.0
  }

  /** What delegators of `v` hold whose reward key is chosen. */
  function Delegated<N>(b: Book<N>, v: N, delegators: seq<N>, keep: Choice<N>): real {
    if delegators == [] then 0.0 else
      var d := delegators[0];
      var key := match b.delegatorKey(d, v) case None => d case Some(k) => k;
      (if keep(DelegatorReward, key) then Stored(b.delegation(d, v)) else 0.0) + Delegated(b, v, delegators[1..], keep)
  }

  function Everyone<N>(): Choice<N> {
    (kind, who) => true
  }

  /** What a validator's reward is shared by: its operator's account and commission, the bond,
      all stakes together, and the delegations of those chosen. */
  datatype Terms<N> = Terms(key: N, commission: real, bond: real, all: real, chosen: real)

  function TermsOf<N>(b: Book<N>, v: N, reward: real, keep: Choice<N>): Terms<N> {
    var key := match b.rewardKey(v) case None => v case Some(k) => k;
    var bond := Stored(b.selfBond(v));
    Terms(key, reward * CommissionRate(b, v), bond, bond + Delegated(b, v, b.delegators(v), Everyone()),
          Delegated(b, v, b.delegators(v), keep))
  }

  /** What of a validator's reward the chosen are due: the operator its commission and the
      part of its own bond, every delegator the part of its delegation. */
  function DueBy<N>(t: Terms<N>, reward: real, keep: Choice<N>): real {
    if t.all <= 0.0 then (if keep(ValidatorReward, t.key) then reward else 0.0)
    else StakeDue(reward, t.commission, t.all, keep(ValidatorReward, t.key), t.bond, t.chosen)
  }

  function DueFrom<N>(b: Book<N>, v: N, reward: real, keep: Choice<N>): real {
    DueBy(TermsOf(b, v, reward, keep), reward, keep)
  }

  /** The commission for the operator if chosen, and the part of the rest that the chosen stakes
      are of all. */
  function StakeDue(reward: real, commission: real, all: real, operator: bool, bond: real, delegated: real): real
    requires all != 0.0
  {
    if operator then commission + (reward - commission) * (bond + delegated) / all
    else (reward - commission) * delegated / all
  }

  /** What comes to the chosen from every validator, each having its share by power. */
  function DueFromEach<N>(b: Book<N>, validators: seq<N>, share: real -> real, due: (N, real) -> real): real {
    if validators == [] then 0.0 else
      var v := validators[|validators| - 1];
      DueFromEach(b, validators[..|validators| - 1], share, due) + due(v, share(VotingPower(b, v)))
  }

  /** What of the validators' pool the chosen are due; each validator shares by its power. */
  function DueFromAll<N>(b: Book<N>, validators: seq<N>, pool: real, keep: Choice<N>): real {
    var total := TotalPower(b, validators);
    if total == 0.0 then 0.0
    else DueFromEach(b, validators, power => pool * power / total, (v, reward) => DueFrom(b, v, reward, keep))
  }

  /** The chi cost of the contracts chosen; only positive costs count. */
  function CostOf<N>(costs: seq<Stake<N>>, chosen: N -> bool): real {
    if costs == [] then 0.0 else
      (if costs[0].weight > 0.0 && chosen(costs[0].recipient) then costs[0].weight else 0.0)
        + CostOf(costs[1..], chosen)
  }

  /** The fraction of the developers' pool that falls to the contracts chosen; without any
      cost it all falls to the called contract. */
  function Fraction<N>(contract: N, costs: Option<seq<Stake<N>>>, chosen: N -> bool): real {
    var all := if costs.None? then 0.0 else CostOf(costs.value, c => true);
    if all == 0.0 then (if chosen(contract) then 1.0 else 0.0) else CostOf(costs.value, chosen) / all
  }

  /** The contracts whose developer is chosen, and those without a developer. */
  function Developed<N>(b: Book<N>, keep: Choice<N>): N -> bool {
    c => b.developer(c).Some? && keep(DeveloperReward, b.developer(c).value)
  }

  function Orphans<N>(b: Book<N>): N -> bool {
    c => b.developer(c).None?
  }

  /** What of the developers' pool the chosen are due: the part of the contracts they develop. */
  function DueFromContracts<N>(
      b: Book<N>, pool: real, contract: N, costs: Option<seq<Stake<N>>>, keep: Choice<N>): real {
    pool * Fraction(contract, costs, Developed(b, keep))
  }

  /** The part of contracts without a developer; it goes to the validators. */
  function Orphaned<N>(b: Book<N>, pool: real, contract: N, costs: Option<seq<Stake<N>>>): real {
    pool * Fraction(contract, costs, Orphans(b))
  }

  /** Everything the chosen are due of a transaction, in chi. */
  function Due<N>(
      b: Book<N>, owner: N, pools: Pools, validators: seq<N>, contract: N, costs: Option<seq<Stake<N>>>,
      keep: Choice<N>): real {
    (if keep(FoundationReward, owner) then pools.foundation else 0.0)
    + DueFromAll(b, validators, pools.validators + Orphaned(b, pools.developers, contract, costs), keep)
    + DueFromContracts(b, pools.developers, contract, costs, keep)
  }

  // ------------------------------------------------------------------------ sums of records

  lemma {:induction false} WhereAppends<N(!new)>(a: seq<Record<N>>, c: seq<Record<N>>, keep: Choice<N>)
    ensures SumWhere(a + c, keep) == SumWhere(a, keep) + SumWhere(c, keep)
    decreases |c|
  {
    if c == [] {
      assert a + c == a;
    } else {
      assert (a + c)[..|a + c| - 1] == a + c[..|c| - 1];
      WhereAppends(a, c[..|c| - 1], keep);
    }
  }

  lemma {:induction false} WherePriced<N(!new)>(records: seq<Record<N>>, price: real -> real, keep: Choice<N>)
    requires Additive(price)
    ensures SumWhere(Priced(records, price), keep) == price(SumWhere(records, keep))
  {
    if records != [] {
      var n := |records| - 1;
      WherePriced(records[..n], price, keep);
      assert Priced(records, price)[..n] == Priced(records[..n], price);
      assert Adds(price, SumWhere(records[..n], keep), records[n].value);
    }
  }

  lemma {:induction false} WhereOne<N(!new)>(record: Record<N>, keep: Choice<N>)
    ensures SumWhere([record], keep) == if keep(record.kind, record.recipient) then record.value else 0.0
  {
    assert [record][..0] == [];
  }

  /** The weight of the stakes chosen. */
  function KeptWeight<N>(kind: Kind, ws: seq<Stake<N>>, keep: Choice<N>): real {
    if ws == [] then 0.0 else
      var last := ws[|ws| - 1];
      KeptWeight(kind, ws[..|ws| - 1], keep) + if keep(kind, last.recipient) then last.weight else 0.0
  }

  lemma {:induction false} WhereShares<N(!new)>(kind: Kind, ws: seq<Stake<N>>, value: real -> real, keep: Choice<N>)
    requires Additive(value)
    ensures SumWhere(Shares(kind, ws, Parts(value, ws)), keep) == value(KeptWeight(kind, ws, keep))
  {
    var rs := Shares(kind, ws, Parts(value, ws));
    if ws != [] {
      var n := |ws| - 1;
      WhereShares(kind, ws[..n], value, keep);
      assert rs[..n] == Shares(kind, ws[..n], Parts(value, ws[..n]));
      AddsIf(value, KeptWeight(kind, ws[..n], keep), ws[n].weight, keep(kind, ws[n].recipient));
      assert rs[n] == Record(kind, ws[n].recipient, value(ws[n].weight));
    }
  }

  lemma {:induction false} AddsIf(value: real -> real, x: real, y: real, chosen: bool)
    requires Additive(value)
    ensures value(x + if chosen then y else 0.0) == value(x) + if chosen then value(y) else 0.0
  {
    assert Adds(value, x, y);
  }

  // -------------------------------------------------------------------------- one validator

  lemma {:induction false} KeptAppends<N(!new)>(kind: Kind, a: seq<Stake<N>>, c: seq<Stake<N>>, keep: Choice<N>)
    ensures KeptWeight(kind, a + c, keep) == KeptWeight(kind, a, keep) + KeptWeight(kind, c, keep)
    decreases |c|
  {
    if c == [] {
      assert a + c == a;
    } else {
      assert (a + c)[..|a + c| - 1] == a + c[..|c| - 1];
      KeptAppends(kind, a, c[..|c| - 1], keep);
    }
  }

  lemma {:induction false} KeptOne<N(!new)>(kind: Kind, w: Stake<N>, keep: Choice<N>)
    ensures KeptWeight(kind, [w], keep) == if keep(kind, w.recipient) then w.weight else 0.0
  {
    assert [w][..0] == [];
  }

  lemma {:induction false} DelegationsKept<N(!new)>(b: Book<N>, v: N, delegators: seq<N>, keep: Choice<N>)
    ensures KeptWeight(DelegatorReward, Delegations(b, v, delegators), keep) == Delegated(b, v, delegators, keep)
  {
    if delegators != [] {
      var d := delegators[0];
      var amount := AtLeastZero(b.delegation(d, v));
      var stake := Stake(OrElse(b.delegatorKey(d, v), d), amount);
      var rest := Delegations(b, v, delegators[1..]);
      DelegationsKept(b, v, delegators[1..], keep);
      if amount > 0.0 {
        KeptAppends(DelegatorReward, [stake], rest, keep);
        KeptOne(DelegatorReward, stake, keep);
      } else {
        assert [] + rest == rest;
      }
    }
  }

  lemma {:induction false} KeptEverything<N(!new)>(kind: Kind, ws: seq<Stake<N>>)
    ensures KeptWeight(kind, ws, Everyone()) == Weight(ws)
  {
    if ws != [] {
      KeptEverything(kind, ws[..|ws| - 1]);
    }
  }

  lemma {:induction false} WhereStaking<N(!new)>(s: Staking<N>, value: real -> real, keep: Choice<N>)
    requires Additive(value) && OperatorTotal(s, value) >= 0.0 && s.bond >= 0.0
    ensures SumWhere(StakingRecords(s, value), keep) ==
      (if keep(ValidatorReward, s.key) then s.commission + value(s.bond) else 0.0)
      + value(KeptWeight(DelegatorReward, s.delegations, keep))
  {
    var operator := OperatorTotal(s, value);
    assert s.bond == 0.0 ==> value(s.bond) == 0.0;
    var record := Record(ValidatorReward, s.key, operator);
    var head := if operator > 0.0 then [record] else [];
    WhereAppends(head, Shares(DelegatorReward, s.delegations, Parts(value, s.delegations)), keep);
    WhereShares(DelegatorReward, s.delegations, value, keep);
    WhereOne(record, keep);
  }

  lemma {:induction false} CommissionMatches<N(!new)>(b: Book<N>, v: N, reward: real)
    ensures CommissionOn(b, v, reward) == reward * CommissionRate(b, v)
  {
    var bps := Commission(b, v);
    assert bps == CommissionRate(b, v) * 10000.0;
    assert reward * bps / 10000.0 == reward * (bps / 10000.0);
  }

  lemma {:induction false} StakeDueIs(
      reward: real, commission: real, all: real, operator: bool, bond: real, delegated: real, value: real -> real)
    requires all != 0.0 && value == ProRata(reward - commission, all)
    ensures StakeDue(reward, commission, all, operator, bond, delegated) ==
      (if operator then commission + value(bond) else 0.0) + value(delegated)
  {
    ProRataAdditive(reward - commission, all);
    assert Adds(value, bond, delegated);
  }

  lemma {:induction false} OperatorNonNegative<N>(s: Staking<N>, reward: real)
    requires 0.0 <= s.commission <= reward && s.bond >= 0.0 && s.Base() > 0.0
    ensures
      var value := ProRata(reward - s.commission, s.Base());
      Additive(value) && OperatorTotal(s, value) >= 0.0
  {
    ProRataAdditive(reward - s.commission, s.Base());
    ProRataNonNegative(reward - s.commission, s.Base(), s.bond);
  }

  lemma {:induction false} StakesPaid<N(!new)>(s: Staking<N>, reward: real, kept: real, keep: Choice<N>)
    requires 0.0 <= s.commission <= reward && s.bond >= 0.0 && s.Base() > 0.0
    requires kept == KeptWeight(DelegatorReward, s.delegations, keep)
    ensures SumWhere(StakingRecords(s, ProRata(reward - s.commission, s.Base())), keep) ==
      StakeDue(reward, s.commission, s.Base(), keep(ValidatorReward, s.key), s.bond, kept)
  {
    var value := ProRata(reward - s.commission, s.Base());
    OperatorNonNegative(s, reward);
    WhereStaking(s, value, keep);
    StakeDueIs(reward, s.commission, s.Base(), keep(ValidatorReward, s.key), s.bond, kept, value);
  }

  /** The terms a validator's stakes share by are those in contract state. */
  lemma {:induction false} TermsMatch<N(!new)>(b: Book<N>, v: N, reward: real, keep: Choice<N>)
    requires reward >= 0.0
    ensures
      var s := StakingOf(b, v, reward);
      && 0.0 <= s.commission <= reward
      && TermsOf(b, v, reward, keep) ==
           Terms(s.key, s.commission, s.bond, s.Base(), KeptWeight(DelegatorReward, s.delegations, keep))
  {
    DelegationsKept(b, v, b.delegators(v), Everyone());
    KeptEverything(DelegatorReward, StakingOf(b, v, reward).delegations);
    DelegationsKept(b, v, b.delegators(v), keep);
    CommissionMatches(b, v, reward);
    CommissionWithin(b, v, reward);
  }

  lemma {:induction false} TermsPaid<N(!new)>(s: Staking<N>, t: Terms<N>, reward: real, keep: Choice<N>)
    requires 0.0 <= s.commission <= reward && s.bond >= 0.0
    requires t == Terms(s.key, s.commission, s.bond, s.Base(), KeptWeight(DelegatorReward, s.delegations, keep))
    ensures SumWhere(StakingPays(s, reward), keep) == DueBy(t, reward, keep)
  {
    if s.Base() <= 0.0 {
      WhereOne(Record(ValidatorReward, s.key, reward), keep);
    } else {
      StakesPaid(s, reward, t.chosen, keep);
    }
  }

  /** One validator's records pay the chosen what they are due. */
  lemma {:induction false} ValidatorPaysDue<N(!new)>(b: Book<N>, v: N, reward: real, keep: Choice<N>)
    requires reward >= 0.0
    ensures SumWhere(ValidatorRecords(b, v, reward), keep) == DueFrom(b, v, reward, keep)
  {
    TermsMatch(b, v, reward, keep);
    TermsPaid(StakingOf(b, v, reward), TermsOf(b, v, reward, keep), reward, keep);
  }

  // -------------------------------------------------------------------------- the validators

  /** The payer's records pay the chosen what is due. */
  ghost predicate PaysDue<N(!new)>(pay: Payer<N>, due: (N, real) -> real, keep: Choice<N>) {
    forall v, reward :: PaysDueAt(pay, due, keep, v, reward)
  }

  ghost predicate PaysDueAt<N>(pay: Payer<N>, due: (N, real) -> real, keep: Choice<N>, v: N, reward: real) {
    reward >= 0.0 ==> SumWhere(pay(v, reward), keep) == due(v, reward)
  }

  lemma {:induction false} PayerPaysDue<N(!new)>(b: Book<N>, pay: Payer<N>, due: (N, real) -> real, keep: Choice<N>)
    requires PaysLike(b, pay) && forall v, reward :: due(v, reward) == DueFrom(b, v, reward, keep)
    ensures PaysDue(pay, due, keep)
  {
    forall v, reward ensures PaysDueAt(pay, due, keep, v, reward) {
      assert PaysAs(b, pay, v, reward);
      if reward >= 0.0 {
        ValidatorPaysDue(b, v, reward, keep);
      }
    }
  }

  lemma {:induction false} EachPaysDue<N(!new)>(
      b: Book<N>, validators: seq<N>, pay: Payer<N>, share: real -> real, due: (N, real) -> real, keep: Choice<N>)
    requires PaysDue(pay, due, keep)
    requires AllAtLeastZero(Parts(share, Powers(b, validators)))
    ensures
      var ws := Powers(b, validators);
      SumWhere(AllRecords(pay, ws, Parts(share, ws)), keep) == DueFromEach(b, validators, share, due)
  {
    if validators != [] {
      var n, ws := |validators| - 1, Powers(b, validators);
      var values := Parts(share, ws);
      assert ws[..n] == Powers(b, validators[..n]) && values[..n] == Parts(share, ws[..n]);
      EachPaysDue(b, validators[..n], pay, share, due, keep);
      assert values[n] == share(VotingPower(b, validators[n]));
      assert PaysDueAt(pay, due, keep, validators[n], values[n]);
      WhereAppends(AllRecords(pay, ws[..n], values[..n]), pay(validators[n], values[n]), keep);
    }
  }

  lemma {:induction false} PowersMatch<N(!new)>(b: Book<N>, validators: seq<N>)
    ensures Weight(Powers(b, validators)) == TotalPower(b, validators)
  {
    if validators != [] {
      var n := |validators| - 1;
      PowersMatch(b, validators[..n]);
      assert Powers(b, validators)[..n] == Powers(b, validators[..n]);
    }
  }

  /** Only the values of a share matter. */
  lemma {:induction false} SameShares<N(!new)>(
      b: Book<N>, validators: seq<N>, share: real -> real, share': real -> real,
      due: (N, real) -> real, due': (N, real) -> real)
    requires forall w :: share(w) == share'(w)
    requires forall v, reward :: due(v, reward) == due'(v, reward)
    ensures DueFromEach(b, validators, share, due) == DueFromEach(b, validators, share', due')
  {
    if validators != [] {
      SameShares(b, validators[..|validators| - 1], share, share', due, due');
    }
  }

  lemma {:induction false} ValidatorsPaidDue<N(!new)>(
      b: Book<N>, plan: Plan<N>, validators: seq<N>, pool: real, keep: Choice<N>)
    requires pool >= 0.0 && PaysLike(b, plan.pay) && plan.powers == Powers(b, validators)
    requires ProportionalPlan(plan)
    ensures SumWhere(ValidatorPart(plan, pool), keep) == DueFromAll(b, validators, pool, keep)
  {
    PowersMatch(b, validators);
    if validators != [] {
      WeightPositive(plan.powers);
      ProportionalSplits(plan.powers);
      assert SplitsAt(Proportional(plan.powers), plan.powers, pool);
      assert SplitsProportionally(plan, pool);
      var total := TotalPower(b, validators);
      var due := (v, reward) => DueFrom(b, v, reward, keep);
      PayerPaysDue(b, plan.pay, due, keep);
      EachPaysDue(b, validators, plan.pay, ProRata(pool, total), due, keep);
      SameShares(
        b, validators, ProRata(pool, total), power => pool * power / total, due,
        (v, reward) => DueFrom(b, v, reward, keep));
    }
  }

  // -------------------------------------------------------------------------- the developers

  function WeightOf<N>(ws: seq<Stake<N>>, chosen: N -> bool): real {
    if ws == [] then 0.0 else
      var last := ws[|ws| - 1];
      WeightOf(ws[..|ws| - 1], chosen) + if chosen(last.recipient) then last.weight else 0.0
  }

  lemma {:induction false} WeightOfHead<N(!new)>(w: Stake<N>, rest: seq<Stake<N>>, chosen: N -> bool)
    ensures WeightOf([w] + rest, chosen) == (if chosen(w.recipient) then w.weight else 0.0) + WeightOf(rest, chosen)
    decreases |rest|
  {
    if rest == [] {
      assert [w] + rest == [w] && [w][..0] == [];
    } else {
      var n := |rest| - 1;
      assert ([w] + rest)[..n + 1] == [w] + rest[..n];
      WeightOfHead(w, rest[..n], chosen);
    }
  }

  lemma {:induction false} PositiveMatches<N(!new)>(costs: seq<Stake<N>>, chosen: N -> bool)
    ensures WeightOf(Positive(costs), chosen) == CostOf(costs, chosen)
  {
    if costs != [] {
      PositiveMatches(costs[1..], chosen);
      if costs[0].weight > 0.0 {
        WeightOfHead(costs[0], Positive(costs[1..]), chosen);
      } else {
        assert [] + Positive(costs[1..]) == Positive(costs[1..]);
      }
    }
  }

  lemma {:induction false} WeightOfAll<N(!new)>(ws: seq<Stake<N>>, all: N -> bool)
    requires forall c :: all(c)
    ensures WeightOf(ws, all) == Weight(ws)
  {
    if ws != [] {
      WeightOfAll(ws[..|ws| - 1], all);
    }
  }

  /** The sources' weights are the contracts' costs; together they are the fractions. */
  lemma {:induction false} FractionMatches<N(!new)>(contract: N, costs: Option<seq<Stake<N>>>, chosen: N -> bool)
    ensures Weight(Sources(contract, costs)) > 0.0
    ensures
      WeightOf(Sources(contract, costs), chosen) / Weight(Sources(contract, costs)) == Fraction(contract, costs, chosen)
  {
    var ws := Sources(contract, costs);
    WeightPositive(ws);
    if costs.Some? {
      PositiveMatches(costs.value, chosen);
      PositiveMatches(costs.value, c => true);
      WeightOfAll(Positive(costs.value), c => true);
      WeightPositive(Positive(costs.value));
    }
    assert [Stake(contract, 1.0)][..0] == [];
  }

  lemma {:induction false} DeveloperShareOf<N(!new)>(
      developer: N -> Option<N>, ws: seq<Stake<N>>, value: real -> real, keep: Choice<N>, chosen: N -> bool)
    requires Additive(value)
    requires forall c :: chosen(c) <==> developer(c).Some? && keep(DeveloperReward, developer(c).value)
    ensures SumWhere(DeveloperRecords(developer, ws, Parts(value, ws)), keep) == value(WeightOf(ws, chosen))
  {
    if ws != [] {
      var n := |ws| - 1;
      var values := Parts(value, ws);
      assert values[..n] == Parts(value, ws[..n]);
      DeveloperShareOf(developer, ws[..n], value, keep, chosen);
      assert Adds(value, WeightOf(ws[..n], chosen), ws[n].weight);
      var recipient := developer(ws[n].recipient);
      var before := DeveloperRecords(developer, ws[..n], values[..n]);
      if recipient.Some? {
        var record := Record(DeveloperReward, recipient.value, values[n]);
        WhereAppends(before, [record], keep);
        WhereOne(record, keep);
      } else {
        assert before + [] == before;
      }
    }
  }

  lemma {:induction false} RedirectedShareOf<N(!new)>(
      developer: N -> Option<N>, ws: seq<Stake<N>>, value: real -> real, chosen: N -> bool)
    requires Additive(value) && forall c :: chosen(c) <==> developer(c).None?
    ensures Redirected(developer, ws, Parts(value, ws)) == value(WeightOf(ws, chosen))
  {
    if ws != [] {
      var n := |ws| - 1;
      assert Parts(value, ws)[..n] == Parts(value, ws[..n]);
      RedirectedShareOf(developer, ws[..n], value, chosen);
      assert Adds(value, WeightOf(ws[..n], chosen), ws[n].weight);
    }
  }

  lemma {:induction false} PartOfPool(pool: real, weight: real, base: real, fraction: real)
    requires base != 0.0 && weight / base == fraction
    ensures ProRata(pool, base)(weight) == pool * fraction
  {
  }

  /** The value of the chosen sources is their fraction of the pool. */
  ghost predicate FractionAt<N(!new)>(
      value: real -> real, pool: real, contract: N, costs: Option<seq<Stake<N>>>, chosen: N -> bool) {
    value(WeightOf(Sources(contract, costs), chosen)) == pool * Fraction(contract, costs, chosen)
  }

  lemma {:induction false} PoolFraction<N(!new)>(
      pool: real, contract: N, costs: Option<seq<Stake<N>>>, chosen: N -> bool)
    requires Weight(Sources(contract, costs)) != 0.0
    ensures FractionAt(ProRata(pool, Weight(Sources(contract, costs))), pool, contract, costs, chosen)
  {
    var ws := Sources(contract, costs);
    FractionMatches(contract, costs, chosen);
    PartOfPool(pool, WeightOf(ws, chosen), Weight(ws), Fraction(contract, costs, chosen));
  }

  lemma {:induction false} ContractShares<N(!new)>(
      plan: Plan<N>, pools: Pools, contract: N, costs: Option<seq<Stake<N>>>, chosen: N -> bool, amount: real)
      returns (value: real -> real)
    requires plan.sources == Sources(contract, costs) && ProportionalPlan(plan)
    requires amount == pools.developers * Fraction(contract, costs, chosen)
    ensures Additive(value) && DeveloperShares(plan, pools) == Parts(value, plan.sources)
    ensures value(WeightOf(plan.sources, chosen)) == amount
  {
    WeightPositive(plan.sources);
    value := ProRata(pools.developers, Weight(plan.sources));
    ProRataAdditive(pools.developers, Weight(plan.sources));
    assert SplitsProportionally(plan, pools.developers);
    PoolFraction(pools.developers, contract, costs, chosen);
  }

  lemma {:induction false} DevelopersPaid<N(!new)>(
      plan: Plan<N>, pools: Pools, value: real -> real, keep: Choice<N>, chosen: N -> bool)
    requires Additive(value) && DeveloperShares(plan, pools) == Parts(value, plan.sources)
    requires forall c :: chosen(c) <==> plan.developer(c).Some? && keep(DeveloperReward, plan.developer(c).value)
    ensures SumWhere(DeveloperPart(plan, pools), keep) == value(WeightOf(plan.sources, chosen))
  {
    DeveloperShareOf(plan.developer, plan.sources, value, keep, chosen);
  }

  lemma {:induction false} DevelopersPaidDue<N(!new)>(
      b: Book<N>, plan: Plan<N>, pools: Pools, contract: N, costs: Option<seq<Stake<N>>>, keep: Choice<N>)
    requires plan.developer == b.developer && plan.sources == Sources(contract, costs) && ProportionalPlan(plan)
    ensures SumWhere(DeveloperPart(plan, pools), keep) == DueFromContracts(b, pools.developers, contract, costs, keep)
  {
    var amount := DueFromContracts(b, pools.developers, contract, costs, keep);
    var value := ContractShares(plan, pools, contract, costs, Developed(b, keep), amount);
    DevelopersPaid(plan, pools, value, keep, Developed(b, keep));
  }

  lemma {:induction false} RedirectedPaid<N(!new)>(plan: Plan<N>, pools: Pools, value: real -> real, chosen: N -> bool)
    requires Additive(value) && DeveloperShares(plan, pools) == Parts(value, plan.sources)
    requires forall c :: chosen(c) <==> plan.developer(c).None?
    ensures RedirectedShares(plan, pools) == value(WeightOf(plan.sources, chosen))
  {
    RedirectedShareOf(plan.developer, plan.sources, value, chosen);
  }

  lemma {:induction false} RedirectedAreOrphaned<N(!new)>(
      b: Book<N>, plan: Plan<N>, pools: Pools, contract: N, costs: Option<seq<Stake<N>>>)
    requires plan.developer == b.developer && plan.sources == Sources(contract, costs) && ProportionalPlan(plan)
    ensures RedirectedShares(plan, pools) == Orphaned(b, pools.developers, contract, costs)
  {
    var amount := Orphaned(b, pools.developers, contract, costs);
    var value := ContractShares(plan, pools, contract, costs, Orphans(b), amount);
    RedirectedPaid(plan, pools, value, Orphans(b));
  }

  // --------------------------------------------------------------------- the whole transaction

  lemma {:induction false} WhereFoundation<N(!new)>(owner: N, foundation: real, price: real -> real, keep: Choice<N>)
    requires Additive(price)
    ensures SumWhere(FoundationRecords(owner, price(foundation)), keep) ==
      price(if keep(FoundationReward, owner) then foundation else 0.0)
  {
    WhereOne(Record(FoundationReward, owner, price(foundation)), keep);
  }

  lemma {:induction false} WhereThree<N(!new)>(
      f: seq<Record<N>>, v: seq<Record<N>>, d: seq<Record<N>>, price: real -> real, keep: Choice<N>,
      first: real, second: real, third: real)
    requires Additive(price) && SumWhere(f, keep) == price(first)
    requires SumWhere(v, keep) == price(second) && SumWhere(d, keep) == price(third)
    ensures SumWhere(f + v + d, keep) == price(first + second + third)
  {
    WhereAppends(f, v, keep);
    WhereAppends(f + v, d, keep);
    assert Adds(price, first, second) && Adds(price, first + second, third);
  }

  lemma {:induction false} WherePayout<N(!new)>(
      owner: N, foundation: real, v: seq<Record<N>>, d: seq<Record<N>>, price: real -> real, keep: Choice<N>)
    requires Additive(price)
    ensures SumWhere(Payout(owner, foundation, v, d, price), keep) ==
      price((if keep(FoundationReward, owner) then foundation else 0.0) + SumWhere(v, keep) + SumWhere(d, keep))
  {
    WhereFoundation(owner, foundation, price, keep);
    WherePriced(v, price, keep);
    WherePriced(d, price, keep);
    WhereThree(FoundationRecords(owner, price(foundation)), Priced(v, price), Priced(d, price), price, keep,
               if keep(FoundationReward, owner) then foundation else 0.0, SumWhere(v, keep), SumWhere(d, keep));
  }

  lemma {:induction false} OrphanedNonNegative<N(!new)>(plan: Plan<N>, pools: Pools)
    requires Fair(plan) && pools.developers >= 0.0
    ensures RedirectedShares(plan, pools) >= 0.0
  {
    DeveloperPool(plan, pools);
  }

  /** The plan is the one the transaction has in contract state. */
  ghost predicate PlannedFor<N(!new)>(
      b: Book<N>, plan: Plan<N>, validators: seq<N>, contract: N, costs: Option<seq<Stake<N>>>) {
    && Fair(plan) && ProportionalPlan(plan) && PaysLike(b, plan.pay) && plan.developer == b.developer
    && plan.powers == Powers(b, validators) && plan.sources == Sources(contract, costs)
  }

  lemma {:induction false} PartsPayDue<N(!new)>(
      b: Book<N>, plan: Plan<N>, pools: Pools, validators: seq<N>, contract: N, costs: Option<seq<Stake<N>>>,
      keep: Choice<N>, pool: real)
    requires PlannedFor(b, plan, validators, contract, costs) && pools.validators >= 0.0 && pools.developers >= 0.0
    requires pool == pools.validators + RedirectedShares(plan, pools)
    ensures pool == pools.validators + Orphaned(b, pools.developers, contract, costs)
    ensures SumWhere(ValidatorPart(plan, pool), keep) == DueFromAll(b, validators, pool, keep)
    ensures SumWhere(DeveloperPart(plan, pools), keep) == DueFromContracts(b, pools.developers, contract, costs, keep)
  {
    OrphanedNonNegative(plan, pools);
    RedirectedAreOrphaned(b, plan, pools, contract, costs);
    DevelopersPaidDue(b, plan, pools, contract, costs, keep);
    ValidatorsPaidDue(b, plan, validators, pool, keep);
  }

  lemma {:induction false} RecordsAt<N>(plan: Plan<N>, pools: Pools, pool: real)
    requires pool == pools.validators + RedirectedShares(plan, pools)
    ensures PlanRecords(plan, pools) == PlanPayout(plan, pools, pool)
  {
  }

  lemma {:induction false} PayoutSum<N(!new)>(
      plan: Plan<N>, pools: Pools, pool: real, keep: Choice<N>, first: real, second: real, third: real)
    requires Additive(plan.price) && first == if keep(FoundationReward, plan.owner) then pools.foundation else 0.0
    requires second == SumWhere(ValidatorPart(plan, pool), keep) && third == SumWhere(DeveloperPart(plan, pools), keep)
    ensures SumWhere(PlanPayout(plan, pools, pool), keep) == plan.price(first + second + third)
  {
    WherePayout(plan.owner, pools.foundation, ValidatorPart(plan, pool), DeveloperPart(plan, pools), plan.price, keep);
  }

  lemma {:induction false} RecordsSum<N(!new)>(
      plan: Plan<N>, pools: Pools, pool: real, keep: Choice<N>, first: real, second: real, third: real)
    requires Additive(plan.price) && pool == pools.validators + RedirectedShares(plan, pools)
    requires first == if keep(FoundationReward, plan.owner) then pools.foundation else 0.0
    requires second == SumWhere(ValidatorPart(plan, pool), keep) && third == SumWhere(DeveloperPart(plan, pools), keep)
    ensures SumWhere(PlanRecords(plan, pools), keep) == plan.price(first + second + third)
  {
    PayoutSum(plan, pools, pool, keep, first, second, third);
    RecordsAt(plan, pools, pool);
  }

  lemma {:induction false} DueIs<N(!new)>(
      b: Book<N>, owner: N, pools: Pools, validators: seq<N>, contract: N, costs: Option<seq<Stake<N>>>,
      keep: Choice<N>, pool: real, first: real, second: real, third: real)
    requires pool == pools.validators + Orphaned(b, pools.developers, contract, costs)
    requires first == if keep(FoundationReward, owner) then pools.foundation else 0.0
    requires second == DueFromAll(b, validators, pool, keep)
    requires third == DueFromContracts(b, pools.developers, contract, costs, keep)
    ensures Due(b, owner, pools, validators, contract, costs, keep) == first + second + third
  {
  }

  lemma {:induction false} PlanPaysDue<N(!new)>(
      b: Book<N>, plan: Plan<N>, pools: Pools, validators: seq<N>, contract: N, costs: Option<seq<Stake<N>>>,
      keep: Choice<N>)
    requires PlannedFor(b, plan, validators, contract, costs) && pools.validators >= 0.0 && pools.developers >= 0.0
    ensures SumWhere(PlanRecords(plan, pools), keep) ==
      plan.price(Due(b, plan.owner, pools, validators, contract, costs, keep))
  {
    var pool := pools.validators + RedirectedShares(plan, pools);
    PartsPayDue(b, plan, pools, validators, contract, costs, keep, pool);
    var first := if keep(FoundationReward, plan.owner) then pools.foundation else 0.0;
    var second := DueFromAll(b, validators, pool, keep);
    var third := DueFromContracts(b, pools.developers, contract, costs, keep);
    DueIs(b, plan.owner, pools, validators, contract, costs, keep, pool, first, second, third);
    RecordsSum(plan, pools, pool, keep, first, second, third);
  }

  lemma {:induction false} PlanIsFor<N(!new)>(
      b: Book<N>, owner: N, rate: real, validators: seq<N>, contract: N, costs: Option<seq<Stake<N>>>)
    requires rate != 0.0
    ensures PlannedFor(b, PlanOf(b, owner, rate, validators, contract, costs), validators, contract, costs)
  {
    var plan := PlanOf(b, owner, rate, validators, contract, costs);
    PlanFair(b, owner, rate, validators, contract, costs);
    forall pool ensures SplitsProportionally(plan, pool) {
    }
    forall v, reward ensures PaysAs(b, plan.pay, v, reward) {
    }
  }

  lemma {:induction false} PlanPaysAtRate<N(!new)>(
      b: Book<N>, owner: N, rate: real, pools: Pools, validators: seq<N>, contract: N, costs: Option<seq<Stake<N>>>,
      keep: Choice<N>, due: real)
    requires rate != 0.0 && pools.validators >= 0.0 && pools.developers >= 0.0
    requires due == Due(b, owner, pools, validators, contract, costs, keep)
    ensures SumWhere(PlanRecords(PlanOf(b, owner, rate, validators, contract, costs), pools), keep) == due / rate
  {
    PlanIsFor(b, owner, rate, validators, contract, costs);
    PlanPaysDue(b, PlanOf(b, owner, rate, validators, contract, costs), pools, validators, contract, costs, keep);
  }

  /** The transaction whose rewards are paid. */
  datatype Occasion<N> = Occasion(
    owner: N, rate: real, pools: Pools, validators: seq<N>, contract: N, costs: Option<seq<Stake<N>>>)

  ghost predicate PaidAt<N>(b: Book<N>, o: Occasion<N>, records: seq<Record<N>>, keep: Choice<N>)
    requires o.rate != 0.0
  {
    SumWhere(records, keep) == Due(b, o.owner, o.pools, o.validators, o.contract, o.costs, keep) / o.rate
  }

  /** For any choice of kinds and accounts, the records pay the chosen what they are due. */
  ghost predicate PaysEveryone<N(!new)>(b: Book<N>, o: Occasion<N>, records: seq<Record<N>>)
    requires o.rate != 0.0
  {
    forall keep :: PaidAt(b, o, records, keep)
  }

  /** The records of a transaction pay everyone what is due of the used chi, each ratio to its
      own recipients, at the chi rate. */
  lemma {:induction false} PaidExactly<N(!new)>(
      b: Book<N>, owner: N, r: Ratios, rate: real, chi: real, validators: seq<N>, contract: N,
      costs: Option<seq<Stake<N>>>)
    requires rate != 0.0 && chi > 0.0 && r.validators >= 0.0 && r.developers >= 0.0
    ensures
      var pools := Pools(chi * r.foundation, chi * r.validators, chi * r.developers);
      PaysEveryone(b, Occasion(owner, rate, pools, validators, contract, costs),
                   TxRecords(b, Setup(Some(r), Some(rate), Some(owner)), chi, validators, contract, costs))
  {
    ProductNonNegative(chi, r.validators);
    ProductNonNegative(chi, r.developers);
    PoolsAre(r, chi);
    PlanPaysEveryone(b, owner, rate, PoolsOf(r, chi), validators, contract, costs);
  }

  lemma {:induction false} PlanPaysEveryone<N(!new)>(
      b: Book<N>, owner: N, rate: real, pools: Pools, validators: seq<N>, contract: N, costs: Option<seq<Stake<N>>>)
    requires rate != 0.0 && pools.validators >= 0.0 && pools.developers >= 0.0
    ensures PaysEveryone(b, Occasion(owner, rate, pools, validators, contract, costs),
                         PlanRecords(PlanOf(b, owner, rate, validators, contract, costs), pools))
  {
    forall keep
      ensures PaidAt(b, Occasion(owner, rate, pools, validators, contract, costs),
                     PlanRecords(PlanOf(b, owner, rate, validators, contract, costs), pools), keep)
    {
      PlanPaysAtRate(b, owner, rate, pools, validators, contract, costs, keep,
                     Due(b, owner, pools, validators, contract, costs, keep));
    }
  }

  lemma {:induction false} PoolsAre(r: Ratios, chi: real)
    ensures PoolsOf(r, chi) == Pools(chi * r.foundation, chi * r.validators, chi * r.developers)
  {
  }

  /** Without the ratios, a chi rate, a foundation owner or any chi used, nobody is paid. */
  lemma {:induction false} UnconfiguredPaysNobody<N(!new)>(
      b: Book<N>, s: Setup<N>, chi: real, validators: seq<N>, contract: N, costs: Option<seq<Stake<N>>>)
    ensures s.ratios.None? || s.foundationOwner.None? || s.chiRate.None? || s.chiRate == Some(0.0) || chi <= 0.0 ==>
      TxRecords(b, s, chi, validators, contract, costs) == []
  {
  }

  // ------------------------------------------------------------------------ totals by kind

  lemma {:induction false} DelegatedNone<N(!new)>(b: Book<N>, v: N, delegators: seq<N>, keep: Choice<N>)
    requires forall who :: !keep(DelegatorReward, who)
    ensures Delegated(b, v, delegators, keep) == 0.0
  {
    if delegators != [] {
      DelegatedNone(b, v, delegators[1..], keep);
    }
  }

  lemma {:induction false} DelegatedAll<N(!new)>(b: Book<N>, v: N, delegators: seq<N>, keep: Choice<N>)
    requires forall who :: keep(DelegatorReward, who)
    ensures Delegated(b, v, delegators, keep) == Delegated(b, v, delegators, Everyone())
  {
    if delegators != [] {
      DelegatedAll(b, v, delegators[1..], keep);
    }
  }

  lemma {:induction false} StakeDueNone(reward: real, commission: real, all: real, bond: real)
    requires all != 0.0
    ensures StakeDue(reward, commission, all, false, bond, 0.0) == 0.0
  {
    assert (reward - commission) * 0.0 == 0.0;
  }

  lemma {:induction false} StakeDueAll(reward: real, commission: real, all: real, bond: real, rest: real)
    requires all != 0.0 && bond + rest == all
    ensures StakeDue(reward, commission, all, true, bond, rest) == reward
  {
    ProRataAdditive(reward - commission, all);
    assert ProRata(reward - commission, all)(all) == reward - commission;
  }

  /** All of a validator's reward goes to its operator and delegators. */
  lemma {:induction false} TermsDue<N(!new)>(t: Terms<N>, reward: real, keep: Choice<N>)
    ensures !keep(ValidatorReward, t.key) && t.chosen == 0.0 ==> DueBy(t, reward, keep) == 0.0
    ensures keep(ValidatorReward, t.key) && t.chosen == t.all - t.bond ==> DueBy(t, reward, keep) == reward
  {
    if t.all > 0.0 {
      if !keep(ValidatorReward, t.key) && t.chosen == 0.0 {
        StakeDueNone(reward, t.commission, t.all, t.bond);
      } else if keep(ValidatorReward, t.key) && t.chosen == t.all - t.bond {
        StakeDueAll(reward, t.commission, t.all, t.bond, t.chosen);
      }
    }
  }

  lemma {:induction false} ValidatorDue<N(!new)>(b: Book<N>, v: N, reward: real, keep: Choice<N>)
    ensures
      (forall who :: !keep(ValidatorReward, who) && !keep(DelegatorReward, who)) ==> DueFrom(b, v, reward, keep) == 0.0
    ensures
      (forall who :: keep(ValidatorReward, who) && keep(DelegatorReward, who)) ==> DueFrom(b, v, reward, keep) == reward
  {
    if forall who :: !keep(ValidatorReward, who) && !keep(DelegatorReward, who) {
      DelegatedNone(b, v, b.delegators(v), keep);
    }
    if forall who :: keep(ValidatorReward, who) && keep(DelegatorReward, who) {
      DelegatedAll(b, v, b.delegators(v), keep);
    }
    TermsDue(TermsOf(b, v, reward, keep), reward, keep);
  }

  lemma {:induction false} EachNone<N(!new)>(
      b: Book<N>, validators: seq<N>, share: real -> real, due: (N, real) -> real)
    requires forall v, reward :: due(v, reward) == 0.0
    ensures DueFromEach(b, validators, share, due) == 0.0
  {
    if validators != [] {
      EachNone(b, validators[..|validators| - 1], share, due);
    }
  }

  lemma {:induction false} EachAll<N(!new)>(b: Book<N>, validators: seq<N>, share: real -> real, due: (N, real) -> real)
    requires Additive(share) && forall v, reward :: due(v, reward) == reward
    ensures DueFromEach(b, validators, share, due) == share(TotalPower(b, validators))
  {
    if validators != [] {
      var n := |validators| - 1;
      EachAll(b, validators[..n], share, due);
      assert Adds(share, TotalPower(b, validators[..n]), VotingPower(b, validators[n]));
    }
  }

  lemma {:induction false} PowerPositive<N(!new)>(b: Book<N>, validators: seq<N>)
    ensures TotalPower(b, validators) >= 0.0 && (validators != [] ==> TotalPower(b, validators) > 0.0)
  {
    if validators != [] {
      PowerPositive(b, validators[..|validators| - 1]);
    }
  }

  lemma {:induction false} PoolDueNone<N(!new)>(b: Book<N>, validators: seq<N>, pool: real, keep: Choice<N>)
    requires forall who :: !keep(ValidatorReward, who) && !keep(DelegatorReward, who)
    ensures DueFromAll(b, validators, pool, keep) == 0.0
  {
    var total := TotalPower(b, validators);
    if total != 0.0 {
      var due := (v, reward) => DueFrom(b, v, reward, keep);
      forall v, reward ensures due(v, reward) == 0.0 {
        ValidatorDue(b, v, reward, keep);
      }
      EachNone(b, validators, power => pool * power / total, due);
      SameShares(b, validators, power => pool * power / total, power => pool * power / total, due,
                 (v, reward) => DueFrom(b, v, reward, keep));
    }
  }

  lemma {:induction false} PoolDueAll<N(!new)>(b: Book<N>, validators: seq<N>, pool: real, keep: Choice<N>)
    requires forall who :: keep(ValidatorReward, who) && keep(DelegatorReward, who)
    requires validators != []
    ensures DueFromAll(b, validators, pool, keep) == pool
  {
    PowerPositive(b, validators);
    var total := TotalPower(b, validators);
    var due := (v, reward) => DueFrom(b, v, reward, keep);
    forall v, reward ensures due(v, reward) == reward {
      ValidatorDue(b, v, reward, keep);
    }
    ProRataAdditive(pool, total);
    EachAll(b, validators, ProRata(pool, total), due);
    SameShares(b, validators, ProRata(pool, total), power => pool * power / total, due,
               (v, reward) => DueFrom(b, v, reward, keep));
  }

  lemma {:induction false} CostNone<N(!new)>(costs: seq<Stake<N>>, chosen: N -> bool)
    requires forall c :: !chosen(c)
    ensures CostOf(costs, chosen) == 0.0
  {
    if costs != [] {
      CostNone(costs[1..], chosen);
    }
  }

  lemma {:induction false} FractionNone<N(!new)>(contract: N, costs: Option<seq<Stake<N>>>, chosen: N -> bool)
    requires forall c :: !chosen(c)
    ensures Fraction(contract, costs, chosen) == 0.0
  {
    if costs.Some? {
      CostNone(costs.value, chosen);
    }
  }

  lemma {:induction false} CostSplits<N(!new)>(costs: seq<Stake<N>>, one: N -> bool, other: N -> bool, all: N -> bool)
    requires forall c :: all(c) && (one(c) <==> !other(c))
    ensures CostOf(costs, one) + CostOf(costs, other) == CostOf(costs, all)
  {
    if costs != [] {
      CostSplits(costs[1..], one, other, all);
    }
  }

  lemma {:induction false} Quotients(x: real, y: real, z: real)
    requires z != 0.0 && x + y == z
    ensures x / z + y / z == 1.0
  {
    assert x / z + y / z == (x + y) / z;
  }

  lemma {:induction false} FractionsAddUp<N(!new)>(
      contract: N, costs: Option<seq<Stake<N>>>, one: N -> bool, other: N -> bool)
    requires forall c :: one(c) <==> !other(c)
    ensures Fraction(contract, costs, one) + Fraction(contract, costs, other) == 1.0
  {
    if costs.Some? {
      var all := CostOf(costs.value, c => true);
      CostSplits(costs.value, one, other, c => true);
      if all != 0.0 {
        Quotients(CostOf(costs.value, one), CostOf(costs.value, other), all);
      }
    }
  }

  function Only<N>(kind: Kind): Choice<N> {
    (k, who) => k == kind
  }

  function Stakers<N>(): Choice<N> {
    (k, who) => k == ValidatorReward || k == DelegatorReward
  }

  lemma {:induction false} FoundationDue<N(!new)>(
      b: Book<N>, owner: N, pools: Pools, validators: seq<N>, contract: N, costs: Option<seq<Stake<N>>>)
    ensures Due(b, owner, pools, validators, contract, costs, Only(FoundationReward)) == pools.foundation
  {
    var keep: Choice<N> := Only(FoundationReward);
    var pool := pools.validators + Orphaned(b, pools.developers, contract, costs);
    PoolDueNone(b, validators, pool, keep);
    FractionNone(contract, costs, Developed(b, keep));
    DueIs(b, owner, pools, validators, contract, costs, keep, pool, pools.foundation, 0.0, 0.0);
  }

  lemma {:induction false} StakersDue<N(!new)>(
      b: Book<N>, owner: N, pools: Pools, validators: seq<N>, contract: N, costs: Option<seq<Stake<N>>>, moved: real)
    requires validators != [] && moved == Orphaned(b, pools.developers, contract, costs)
    ensures Due(b, owner, pools, validators, contract, costs, Stakers()) == pools.validators + moved
  {
    var keep: Choice<N>, pool := Stakers(), pools.validators + moved;
    PoolDueAll(b, validators, pool, keep);
    FractionNone(contract, costs, Developed(b, keep));
    DueIs(b, owner, pools, validators, contract, costs, keep, pool, 0.0, pool, 0.0);
  }

  lemma {:induction false} PartsOfPool(pool: real, x: real, y: real)
    requires x + y == 1.0
    ensures pool * x == pool - pool * y
  {
    assert pool * (x + y) == pool * x + pool * y;
  }

  lemma {:induction false} ContractsDueAll<N(!new)>(
      b: Book<N>, pool: real, contract: N, costs: Option<seq<Stake<N>>>, moved: real)
    requires moved == Orphaned(b, pool, contract, costs)
    ensures DueFromContracts(b, pool, contract, costs, Only(DeveloperReward)) == pool - moved
  {
    var developed := Developed(b, Only(DeveloperReward));
    FractionsAddUp(contract, costs, developed, Orphans(b));
    PartsOfPool(pool, Fraction(contract, costs, developed), Fraction(contract, costs, Orphans(b)));
  }

  lemma {:induction false} DevelopersDue<N(!new)>(
      b: Book<N>, owner: N, pools: Pools, validators: seq<N>, contract: N, costs: Option<seq<Stake<N>>>, moved: real)
    requires moved == Orphaned(b, pools.developers, contract, costs)
    ensures Due(b, owner, pools, validators, contract, costs, Only(DeveloperReward)) == pools.developers - moved
  {
    var keep: Choice<N>, pool := Only(DeveloperReward), pools.validators + moved;
    PoolDueNone(b, validators, pool, keep);
    ContractsDueAll(b, pools.developers, contract, costs, moved);
    DueIs(b, owner, pools, validators, contract, costs, keep, pool, 0.0, 0.0, pools.developers - moved);
  }

  /** The foundation gets its pool, at the chi rate. */
  lemma {:induction false} FoundationTotalPaid<N(!new)>(b: Book<N>, o: Occasion<N>, records: seq<Record<N>>)
    requires o.rate != 0.0 && PaysEveryone(b, o, records)
    ensures SumWhere(records, Only(FoundationReward)) == o.pools.foundation / o.rate
  {
    assert PaidAt(b, o, records, Only(FoundationReward));
    FoundationDue(b, o.owner, o.pools, o.validators, o.contract, o.costs);
  }

  /** Validators and delegators get theirs, and the part of contracts without a developer. */
  lemma {:induction false} StakersTotalPaid<N(!new)>(b: Book<N>, o: Occasion<N>, records: seq<Record<N>>)
    requires o.rate != 0.0 && PaysEveryone(b, o, records) && o.validators != []
    ensures SumWhere(records, Stakers()) ==
      (o.pools.validators + Orphaned(b, o.pools.developers, o.contract, o.costs)) / o.rate
  {
    assert PaidAt(b, o, records, Stakers());
    StakersDue(b, o.owner, o.pools, o.validators, o.contract, o.costs,
               Orphaned(b, o.pools.developers, o.contract, o.costs));
  }

  /** Developers get theirs less that part. */
  lemma {:induction false} DevelopersTotalPaid<N(!new)>(b: Book<N>, o: Occasion<N>, records: seq<Record<N>>)
    requires o.rate != 0.0 && PaysEveryone(b, o, records)
    ensures SumWhere(records, Only(DeveloperReward)) ==
      (o.pools.developers - Orphaned(b, o.pools.developers, o.contract, o.costs)) / o.rate
  {
    assert PaidAt(b, o, records, Only(DeveloperReward));
    DevelopersDue(b, o.owner, o.pools, o.validators, o.contract, o.costs,
                  Orphaned(b, o.pools.developers, o.contract, o.costs));
  }

  /** That part is nothing when every contract has a developer, and all when none has. */
  lemma {:induction false} OrphanedExactly<N(!new)>(b: Book<N>, pool: real, contract: N, costs: Option<seq<Stake<N>>>)
    ensures (forall c :: b.developer(c).Some?) ==> Orphaned(b, pool, contract, costs) == 0.0
    ensures (forall c :: b.developer(c).None?) ==> Orphaned(b, pool, contract, costs) == pool
  {
    if forall c :: b.developer(c).Some? {
      FractionNone(contract, costs, Orphans(b));
    }
    if forall c :: b.developer(c).None? {
      FractionNone(contract, costs, Developed(b, Everyone()));
      FractionsAddUp(contract, costs, Developed(b, Everyone()), Orphans(b));
    }
  }
}
