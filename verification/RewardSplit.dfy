/** The reward of one transaction: the validator set, the developers, the foundation. */
module RewardSplit {
  import opened Basics
  import opened Rewards

  function Merge<N>(m: map<N, real>, n: map<N, real>): map<N, real> {
    map who | who in m.Keys + n.Keys :: Amount(m, who) + Amount(n, who)
  }

  lemma {:induction false} MergePays<N(!new)>(m: map<N, real>, a: seq<Record<N>>, n: map<N, real>, b: seq<Record<N>>)
    requires Pays(m, a) && Pays(n, b)
    ensures Pays(Merge(m, n), a + b)
  {
    forall who ensures Amount(Merge(m, n), who) == SumFor(a + b, who) {
      Appends(a, b, who);
    }
  }

  // ---------------------------------------------------------------------- the validator set

  /** What a validator's share turns into. */
  type Payer<!N> = (N, real) -> seq<Record<N>>

  ghost predicate Exact<N(!new)>(pay: Payer<N>) {
    forall v, reward :: ExactAt(pay, v, reward)
  }

  ghost predicate ExactAt<N>(pay: Payer<N>, v: N, reward: real) {
    reward >= 0.0 ==> Total(pay(v, reward)) == reward && NonNegative(pay(v, reward))
  }

  function PayerOf<N>(b: Book<N>): Payer<N> {
    (v: N, reward: real) => ValidatorRecords(b, v, reward)
  }

  lemma {:induction false} PayerExact<N(!new)>(b: Book<N>)
    ensures Exact(PayerOf(b))
  {
    forall v, reward ensures ExactAt(PayerOf(b), v, reward) {
      if reward >= 0.0 {
        ValidatorConserves(b, v, reward);
      }
    }
  }

  function Powers<N>(b: Book<N>, validators: seq<N>): (ws: seq<Stake<N>>)
    ensures |ws| == |validators|
    ensures forall i :: 0 <= i < |ws| ==> ws[i] == Stake(validators[i], Power(b, validators[i]))
  {
    seq(|validators|, i requires 0 <= i < |validators| => Stake(validators[i], Power(b, validators[i])))
  }

  /** Every validator's records, in order. */
  function AllRecords<N>(pay: Payer<N>, ws: seq<Stake<N>>, values: seq<real>): seq<Record<N>>
    requires |ws| == |values|
  {
    if ws == [] then [] else
      var n := |ws| - 1;
      AllRecords(pay, ws[..n], values[..n]) + pay(ws[n].recipient, values[n])
  }

  ghost predicate AllAtLeastZero(values: seq<real>) {
    forall i :: 0 <= i < |values| ==> values[i] >= 0.0
  }

  lemma {:induction false} AllRecordsTotal<N(!new)>(pay: Payer<N>, ws: seq<Stake<N>>, values: seq<real>)
    requires Exact(pay) && |ws| == |values| && AllAtLeastZero(values)
    ensures Total(AllRecords(pay, ws, values)) == Sum(values)
    ensures NonNegative(AllRecords(pay, ws, values))
  {
    if ws != [] {
      var n := |ws| - 1;
      AllRecordsTotal(pay, ws[..n], values[..n]);
      assert ExactAt(pay, ws[n].recipient, values[n]);
      Appends(AllRecords(pay, ws[..n], values[..n]), pay(ws[n].recipient, values[n]), ws[n].recipient);
    }
  }

  /** The payer gives a validator's reward to its operator and delegators. */
  ghost predicate PaysLike<N(!new)>(b: Book<N>, pay: Payer<N>) {
    forall v, reward :: PaysAs(b, pay, v, reward)
  }

  ghost predicate PaysAs<N>(b: Book<N>, pay: Payer<N>, v: N, reward: real) {
    pay(v, reward) == ValidatorRecords(b, v, reward)
  }

  method PayValidators<N(==,!new)>(
      b: Book<N>, ghost pay: Payer<N>, ws: seq<Stake<N>>, shares: seq<real>)
      returns (mapping: map<N, real>, records: seq<Record<N>>)
    requires |ws| == |shares| && PaysLike(b, pay)
    ensures records == AllRecords(pay, ws, shares) && Pays(mapping, records)
  {
    mapping, records := map[], [];
    var i := 0;
    while i < |ws|
      invariant 0 <= i <= |ws|
      invariant records == AllRecords(pay, ws[..i], shares[..i])
      invariant Pays(mapping, records)
    {
      var shareMapping, shareRecords := BuildSingleValidatorRewards(b, ws[i].recipient, shares[i]);
      assert PaysAs(b, pay, ws[i].recipient, shares[i]);
      MergePays(mapping, records, shareMapping, shareRecords);
      assert ws[..i + 1][..i] == ws[..i] && shares[..i + 1][..i] == shares[..i];
      mapping, records := Merge(mapping, shareMapping), records + shareRecords;
      i := i + 1;
    }
    assert ws[..i] == ws && shares[..i] == shares;
  }

  // -------------------------------------------------------------------------- the developers

  /** The contracts a transaction spent chi in, by cost; only positive costs count, and
      without any the called contract takes all. */
  function Positive<N>(costs: seq<Stake<N>>): (ws: seq<Stake<N>>)
    ensures forall i :: 0 <= i < |ws| ==> ws[i].weight > 0.0
  {
    if costs == [] then []
    else (if costs[0].weight > 0.0 then [costs[0]] else []) + Positive(costs[1..])
  }

  function Sources<N>(contract: N, costs: Option<seq<Stake<N>>>): (ws: seq<Stake<N>>)
    ensures ws != [] && forall i :: 0 <= i < |ws| ==> ws[i].weight > 0.0
  {
    var ws := if costs.Some? then Positive(costs.value) else [];
    if ws == [] then [Stake(contract, 1.0)] else ws
  }

  /** Contracts without a developer, or owned by the system, pay nobody here. */
  function DeveloperRecords<N>(developer: N -> Option<N>, ws: seq<Stake<N>>, values: seq<real>): seq<Record<N>>
    requires |values| == |ws|
  {
    if ws == [] then [] else
      var n := |ws| - 1;
      var recipient := developer(ws[n].recipient);
      DeveloperRecords(developer, ws[..n], values[..n])
      + (if recipient.None? then [] else [Record(DeveloperReward, recipient.value, values[n])])
  }

  /** Their shares go to the validators instead. */
  function Redirected<N>(developer: N -> Option<N>, ws: seq<Stake<N>>, values: seq<real>): real
    requires |values| == |ws|
  {
    if ws == [] then 0.0 else
      var n := |ws| - 1;
      Redirected(developer, ws[..n], values[..n]) + if developer(ws[n].recipient).None? then values[n] else 0.0
  }

  lemma {:induction false} DevelopersConserve<N(!new)>(developer: N -> Option<N>, ws: seq<Stake<N>>, values: seq<real>)
    requires |values| == |ws| && AllAtLeastZero(values)
    ensures Total(DeveloperRecords(developer, ws, values)) + Redirected(developer, ws, values) == Sum(values)
    ensures NonNegative(DeveloperRecords(developer, ws, values)) && Redirected(developer, ws, values) >= 0.0
  {
    if ws != [] {
      var n := |ws| - 1;
      DevelopersConserve(developer, ws[..n], values[..n]);
      var recipient := developer(ws[n].recipient);
      if recipient.Some? {
        var last := [Record(DeveloperReward, recipient.value, values[n])];
        assert last[..0] == [];
        Appends(DeveloperRecords(developer, ws[..n], values[..n]), last, recipient.value);
      } else {
        assert DeveloperRecords(developer, ws, values) == DeveloperRecords(developer, ws[..n], values[..n]);
      }
    }
  }

  method PayDevelopers<N(==,!new)>(developer: N -> Option<N>, ws: seq<Stake<N>>, shares: seq<real>)
      returns (mapping: map<N, real>, records: seq<Record<N>>, redirected: real)
    requires |shares| == |ws|
    ensures records == DeveloperRecords(developer, ws, shares) && redirected == Redirected(developer, ws, shares)
    ensures Pays(mapping, records)
  {
    mapping, records, redirected := map[], [], 0.0;
    var i := 0;
    while i < |ws|
      invariant 0 <= i <= |ws|
      invariant records == DeveloperRecords(developer, ws[..i], shares[..i])
      invariant redirected == Redirected(developer, ws[..i], shares[..i])
      invariant Pays(mapping, records)
    {
      assert ws[..i + 1][..i] == ws[..i] && shares[..i + 1][..i] == shares[..i];
      var recipient := developer(ws[i].recipient);
      if recipient.None? {
        redirected := redirected + shares[i];
      } else {
        CreditPays(mapping, records, Record(DeveloperReward, recipient.value, shares[i]));
        mapping := Credit(mapping, recipient.value, shares[i]);
        records := records + [Record(DeveloperReward, recipient.value, shares[i])];
      }
      i := i + 1;
    }
    assert ws[..i] == ws && shares[..i] == shares;
  }

  // --------------------------------------------------------------------- the whole transaction

  /** The ratios set in contract state; the burned ratio is paid to nobody. */
  datatype Ratios = Ratios(validators: real, burned: real, foundation: real, developers: real)

  /** The configuration a reward needs; without any part of it nothing is paid. */
  datatype Setup<N> = Setup(ratios: Option<Ratios>, chiRate: Option<real>, foundationOwner: Option<N>)

  predicate Configured<N>(s: Setup<N>, chi: real) {
    s.ratios.Some? && chi > 0.0 && s.chiRate.Some? && s.chiRate.value != 0.0 && s.foundationOwner.Some?
  }

  /** Chi amounts as currency. */
  function Priced<N>(records: seq<Record<N>>, price: real -> real): seq<Record<N>> {
    seq(|records|, i requires 0 <= i < |records| => records[i].(value := price(records[i].value)))
  }

  function PricedMapping<N>(m: map<N, real>, price: real -> real): map<N, real> {
    map who | who in m :: price(m[who])
  }

  lemma {:induction false} PricedTotals<N(!new)>(records: seq<Record<N>>, price: real -> real, who: N)
    requires Additive(price)
    ensures Total(Priced(records, price)) == price(Total(records))
    ensures SumFor(Priced(records, price), who) == price(SumFor(records, who))
  {
    if records != [] {
      var n := |records| - 1;
      PricedTotals(records[..n], price, who);
      assert Priced(records, price)[..n] == Priced(records[..n], price);
      assert Adds(price, Total(records[..n]), records[n].value);
      assert Adds(price, SumFor(records[..n], who), records[n].value);
    }
  }

  lemma {:induction false} PricedPays<N(!new)>(m: map<N, real>, records: seq<Record<N>>, price: real -> real)
    requires Additive(price) && Pays(m, records)
    ensures Pays(PricedMapping(m, price), Priced(records, price))
  {
    forall who ensures Amount(PricedMapping(m, price), who) == SumFor(Priced(records, price), who) {
      PricedTotals(records, price, who);
      assert Amount(m, who) == SumFor(records, who);
    }
  }

  function FoundationRecords<N>(owner: N, amount: real): seq<Record<N>> {
    if amount != 0.0 then [Record(FoundationReward, owner, amount)] else []
  }

  /** The records of one transaction, in currency. */
  function Payout<N>(
      owner: N, foundation: real, v: seq<Record<N>>, d: seq<Record<N>>, price: real -> real): seq<Record<N>> {
    FoundationRecords(owner, price(foundation)) + Priced(v, price) + Priced(d, price)
  }

  lemma {:induction false} FoundationTotal<N(!new)>(owner: N, amount: real)
    ensures Total(FoundationRecords(owner, amount)) == amount
  {
    if amount != 0.0 {
      assert [Record(FoundationReward, owner, amount)][..0] == [];
    }
  }

  lemma {:induction false} ThreeTotals<N(!new)>(f: seq<Record<N>>, v: seq<Record<N>>, d: seq<Record<N>>, who: N)
    ensures Total(f + v + d) == Total(f) + Total(v) + Total(d)
  {
    Appends(f, v, who);
    Appends(f + v, d, who);
  }

  lemma {:induction false} PayoutTotal<N(!new)>(
      owner: N, foundation: real, v: seq<Record<N>>, d: seq<Record<N>>, price: real -> real)
    requires Additive(price)
    ensures Total(Payout(owner, foundation, v, d, price)) == price(foundation + Total(v) + Total(d))
  {
    FoundationTotal(owner, price(foundation));
    PricedTotals(v, price, owner);
    PricedTotals(d, price, owner);
    ThreeTotals(FoundationRecords(owner, price(foundation)), Priced(v, price), Priced(d, price), owner);
    assert Adds(price, foundation, Total(v)) && Adds(price, foundation + Total(v), Total(d));
  }

  /** Crediting every record, at its price, in order. */
  method CreditRecords<N(==,!new)>(v: seq<Record<N>>, price: real -> real, owed: map<N, real>, before: seq<Record<N>>)
      returns (deltas: map<N, real>, records: seq<Record<N>>)
    requires Pays(owed, before)
    ensures records == before + Priced(v, price) && Pays(deltas, records)
  {
    deltas, records := owed, before;
    var i := 0;
    while i < |v|
      invariant 0 <= i <= |v|
      invariant records == before + Priced(v[..i], price)
      invariant Pays(deltas, records)
    {
      var record := v[i].(value := price(v[i].value));
      CreditPays(deltas, records, record);
      deltas, records := Credit(deltas, record.recipient, record.value), records + [record];
      i := i + 1;
    }
    assert v[..i] == v;
  }

  method CollectPayout<N(==,!new)>(
      owner: N, foundation: real, v: seq<Record<N>>, dm: map<N, real>, d: seq<Record<N>>, price: real -> real)
      returns (deltas: map<N, real>, records: seq<Record<N>>)
    requires Additive(price) && Pays(dm, d)
    ensures records == Payout(owner, foundation, v, d, price) && Pays(deltas, records)
  {
    deltas, records := map[], [];
    var amount := price(foundation);
    if amount != 0.0 {
      CreditPays(deltas, records, Record(FoundationReward, owner, amount));
      deltas, records := Credit(deltas, owner, amount), records + [Record(FoundationReward, owner, amount)];
    }
    deltas, records := CreditRecords(v, price, deltas, records);
    PricedPays(dm, d, price);
    MergePays(deltas, records, PricedMapping(dm, price), Priced(d, price));
    deltas, records := Merge(deltas, PricedMapping(dm, price)), records + Priced(d, price);
  }

  /** The three pools a transaction feeds, in chi. */
  datatype Pools = Pools(foundation: real, validators: real, developers: real)

  /** Who shares the pools and how: validators by power, contracts by cost. */
  datatype Plan<!N> = Plan(
    pay: Payer<N>, powers: seq<Stake<N>>, splitPowers: real -> (real -> real),
    developer: N -> Option<N>, sources: seq<Stake<N>>, splitSources: real -> (real -> real),
    owner: N, price: real -> real)

  /** Splitting any pool over the weights pays it out exactly. */
  ghost predicate Splits<N>(split: real -> (real -> real), ws: seq<Stake<N>>) {
    forall pool :: SplitsAt(split, ws, pool)
  }

  ghost predicate SplitsAt<N>(split: real -> (real -> real), ws: seq<Stake<N>>, pool: real) {
    pool >= 0.0 ==> Sum(Parts(split(pool), ws)) == pool && AllAtLeastZero(Parts(split(pool), ws))
  }

  ghost predicate Fair<N(!new)>(plan: Plan<N>) {
    && Exact(plan.pay) && Additive(plan.price)
    && (plan.powers != [] ==> Splits(plan.splitPowers, plan.powers))
    && Splits(plan.splitSources, plan.sources)
  }

  function DeveloperShares<N>(plan: Plan<N>, pools: Pools): (values: seq<real>)
    ensures |values| == |plan.sources|
  {
    Parts(plan.splitSources(pools.developers), plan.sources)
  }

  function RedirectedShares<N>(plan: Plan<N>, pools: Pools): real {
    Redirected(plan.developer, plan.sources, DeveloperShares(plan, pools))
  }

  function DeveloperPart<N>(plan: Plan<N>, pools: Pools): seq<Record<N>> {
    DeveloperRecords(plan.developer, plan.sources, DeveloperShares(plan, pools))
  }

  function ValidatorPart<N>(plan: Plan<N>, due: real): seq<Record<N>> {
    AllRecords(plan.pay, plan.powers, Parts(plan.splitPowers(due), plan.powers))
  }

  /** Everything paid out of the pools: foundation, validators (with what was redirected
      to them), developers. */
  function PlanRecords<N>(plan: Plan<N>, pools: Pools): seq<Record<N>> {
    PlanPayout(plan, pools, pools.validators + RedirectedShares(plan, pools))
  }

  function PlanPayout<N>(plan: Plan<N>, pools: Pools, due: real): seq<Record<N>> {
    Payout(plan.owner, pools.foundation, ValidatorPart(plan, due), DeveloperPart(plan, pools), plan.price)
  }

  lemma {:induction false} DeveloperPool<N(!new)>(plan: Plan<N>, pools: Pools)
    requires Fair(plan) && pools.developers >= 0.0
    ensures Total(DeveloperPart(plan, pools)) + RedirectedShares(plan, pools) == pools.developers
    ensures RedirectedShares(plan, pools) >= 0.0 && NonNegative(DeveloperPart(plan, pools))
  {
    assert SplitsAt(plan.splitSources, plan.sources, pools.developers);
    DevelopersConserve(plan.developer, plan.sources, DeveloperShares(plan, pools));
  }

  lemma {:induction false} ValidatorPool<N(!new)>(plan: Plan<N>, due: real)
    requires Fair(plan) && due >= 0.0
    ensures Total(ValidatorPart(plan, due)) == (if plan.powers == [] then 0.0 else due)
    ensures NonNegative(ValidatorPart(plan, due))
  {
    if plan.powers != [] {
      assert SplitsAt(plan.splitPowers, plan.powers, due);
      AllRecordsTotal(plan.pay, plan.powers, Parts(plan.splitPowers(due), plan.powers));
    }
  }

  lemma {:induction false} PayoutAddsUp<N(!new)>(plan: Plan<N>, pools: Pools, redirected: real, due: real, lost: real)
    requires Additive(plan.price) && due == pools.validators + redirected
    requires Total(DeveloperPart(plan, pools)) + redirected == pools.developers
    requires Total(ValidatorPart(plan, due)) == due - lost
    ensures Total(PlanPayout(plan, pools, due)) ==
      plan.price(pools.foundation + pools.validators + pools.developers - lost)
  {
    var v, d := ValidatorPart(plan, due), DeveloperPart(plan, pools);
    PayoutTotal(plan.owner, pools.foundation, v, d, plan.price);
    assert pools.foundation + Total(v) + Total(d) == pools.foundation + pools.validators + pools.developers - lost;
  }

  lemma {:induction false} PartTotals<N(!new)>(plan: Plan<N>, pools: Pools, due: real)
    requires Fair(plan) && pools.validators >= 0.0 && pools.developers >= 0.0
    requires due == pools.validators + RedirectedShares(plan, pools)
    ensures Total(DeveloperPart(plan, pools)) + RedirectedShares(plan, pools) == pools.developers
    ensures Total(ValidatorPart(plan, due)) == due - if plan.powers == [] then due else 0.0
  {
    DeveloperPool(plan, pools);
    ValidatorPool(plan, due);
  }

  /** What the pools hold is paid out; without a validator, the validators' pool and what
      was redirected to it are lost. */
  lemma {:induction false} PlanConserves<N(!new)>(plan: Plan<N>, pools: Pools)
    requires Fair(plan) && pools.validators >= 0.0 && pools.developers >= 0.0
    ensures
      var lost := if plan.powers == [] then pools.validators + RedirectedShares(plan, pools) else 0.0;
      Total(PlanRecords(plan, pools)) == plan.price(pools.foundation + pools.validators + pools.developers - lost)
  {
    var redirected := RedirectedShares(plan, pools);
    var due := pools.validators + redirected;
    PartTotals(plan, pools, due);
    PayoutAddsUp(plan, pools, redirected, due, if plan.powers == [] then due else 0.0);
  }

  /** Proportional splitting; with no weight at all there is nothing to split by. */
  function Proportional<N>(ws: seq<Stake<N>>): real -> (real -> real) {
    (pool: real) => if Weight(ws) == 0.0 then (weight: real) => 0.0 else ProRata(pool, Weight(ws))
  }

  lemma {:induction false} ProportionalSplits<N(!new)>(ws: seq<Stake<N>>)
    requires ws != [] && forall i :: 0 <= i < |ws| ==> ws[i].weight > 0.0
    ensures Splits(Proportional(ws), ws)
  {
    WeightPositive(ws);
    forall pool ensures SplitsAt(Proportional(ws), ws, pool) {
      if pool >= 0.0 {
        var value := ProRata(pool, Weight(ws));
        assert Proportional(ws)(pool) == value;
        ProRataAdditive(pool, Weight(ws));
        PartsSum(value, ws);
        forall i | 0 <= i < |ws| ensures value(ws[i].weight) >= 0.0 {
          ProRataNonNegative(pool, Weight(ws), ws[i].weight);
        }
      }
    }
  }

  function AtRate(rate: real): real -> real
    requires rate != 0.0
  {
    (x: real) => x / rate
  }

  lemma {:induction false} RateAdditive(rate: real)
    requires rate != 0.0
    ensures Additive(AtRate(rate))
  {
    forall x, y ensures Adds(AtRate(rate), x, y) {
      assert x / rate + y / rate == (x + y) / rate;
    }
  }

  function PoolsOf(r: Ratios, chi: real): Pools {
    Pools(r.foundation * chi, chi * r.validators, chi * r.developers)
  }

  function PlanOf<N>(
      b: Book<N>, owner: N, rate: real, validators: seq<N>, contract: N, costs: Option<seq<Stake<N>>>): Plan<N>
    requires rate != 0.0
  {
    var powers, sources := Powers(b, validators), Sources(contract, costs);
    Plan(PayerOf(b), powers, Proportional(powers), b.developer, sources, Proportional(sources), owner, AtRate(rate))
  }

  lemma {:induction false} PlanFair<N(!new)>(
      b: Book<N>, owner: N, rate: real, validators: seq<N>, contract: N, costs: Option<seq<Stake<N>>>)
    requires rate != 0.0
    ensures Fair(PlanOf(b, owner, rate, validators, contract, costs))
  {
    PayerExact(b);
    RateAdditive(rate);
    ProportionalSplits(Sources(contract, costs));
    if validators != [] {
      ProportionalSplits(Powers(b, validators));
    }
  }

  /** What a transaction pays, in currency; nothing when rewards are not configured. */
  function TxRecords<N>(
      b: Book<N>, s: Setup<N>, chi: real, validators: seq<N>, contract: N,
      costs: Option<seq<Stake<N>>>): seq<Record<N>> {
    if !Configured(s, chi) then []
    else
      PlanRecords(PlanOf(b, s.foundationOwner.value, s.chiRate.value, validators, contract, costs),
                  PoolsOf(s.ratios.value, chi))
  }

  method SplitProportionally<N(!new)>(ws: seq<Stake<N>>, pool: real) returns (shares: seq<real>)
    requires forall i :: 0 <= i < |ws| ==> ws[i].weight > 0.0
    ensures shares == Parts(Proportional(ws)(pool), ws)
  {
    if ws == [] {
      return [];
    }
    WeightPositive(ws);
    ProRataAdditive(pool, Weight(ws));
    PartsSum(ProRata(pool, Weight(ws)), ws);
    shares := SplitPool(ws, ProRata(pool, Weight(ws)), pool);
  }

  ghost predicate SplitsProportionally<N>(plan: Plan<N>, pool: real) {
    && plan.splitPowers(pool) == Proportional(plan.powers)(pool)
    && plan.splitSources(pool) == Proportional(plan.sources)(pool)
  }

  /** Every pool is split in proportion to positive weights. */
  ghost predicate ProportionalPlan<N>(plan: Plan<N>) {
    && (forall pool :: SplitsProportionally(plan, pool))
    && (forall i :: 0 <= i < |plan.powers| ==> plan.powers[i].weight > 0.0)
    && (forall i :: 0 <= i < |plan.sources| ==> plan.sources[i].weight > 0.0)
  }

  method FindDevelopersAndReward<N(==,!new)>(
      plan: Plan<N>, pools: Pools) returns (mapping: map<N, real>, records: seq<Record<N>>, redirected: real)
    requires ProportionalPlan(plan)
    ensures records == DeveloperPart(plan, pools) && redirected == RedirectedShares(plan, pools)
    ensures Pays(mapping, records)
  {
    var shares := SplitProportionally(plan.sources, pools.developers);
    assert SplitsProportionally(plan, pools.developers);
    mapping, records, redirected := PayDevelopers(plan.developer, plan.sources, shares);
  }

  method BuildValidatorSetRewards<N(==,!new)>(
      b: Book<N>, plan: Plan<N>, due: real) returns (mapping: map<N, real>, records: seq<Record<N>>)
    requires ProportionalPlan(plan) && PaysLike(b, plan.pay)
    ensures records == ValidatorPart(plan, due)
    ensures Pays(mapping, records)
  {
    var shares := SplitProportionally(plan.powers, due);
    assert SplitsProportionally(plan, due);
    mapping, records := PayValidators(b, plan.pay, plan.powers, shares);
  }

  lemma {:induction false} PlanRecordsAre<N>(
      plan: Plan<N>, pools: Pools, redirected: real, v: seq<Record<N>>, d: seq<Record<N>>)
    requires redirected == RedirectedShares(plan, pools)
    requires v == ValidatorPart(plan, pools.validators + redirected) && d == DeveloperPart(plan, pools)
    ensures PlanRecords(plan, pools) == Payout(plan.owner, pools.foundation, v, d, plan.price)
  {
  }

  method PayPools<N(==,!new)>(
      b: Book<N>, plan: Plan<N>, pools: Pools) returns (deltas: map<N, real>, records: seq<Record<N>>)
    requires ProportionalPlan(plan) && PaysLike(b, plan.pay) && Additive(plan.price)
    ensures records == PlanRecords(plan, pools)
    ensures Pays(deltas, records)
  {
    var dm, d, redirected := FindDevelopersAndReward(plan, pools);
    var _, v := BuildValidatorSetRewards(b, plan, pools.validators + redirected);
    PlanRecordsAre(plan, pools, redirected, v, d);
    deltas, records := CollectPayout(plan.owner, pools.foundation, v, dm, d, plan.price);
  }

  /** Every account's balance delta is the sum of its reward records. */
  method BuildTxRewardOutputs<N(==,!new)>(
      b: Book<N>, s: Setup<N>, chi: real, validators: seq<N>, contract: N, costs: Option<seq<Stake<N>>>)
      returns (deltas: map<N, real>, records: seq<Record<N>>)
    ensures records == TxRecords(b, s, chi, validators, contract, costs)
    ensures Pays(deltas, records)
  {
    if !Configured(s, chi) {
      return map[], [];
    }
    RateAdditive(s.chiRate.value);
    var plan := PlanOf(b, s.foundationOwner.value, s.chiRate.value, validators, contract, costs);
    deltas, records := PayPools(b, plan, PoolsOf(s.ratios.value, chi));
  }

  lemma {:induction false} ProductNonNegative(x: real, y: real)
    requires x >= 0.0 && y >= 0.0
    ensures x * y >= 0.0
  {
  }

  lemma {:induction false} PoolsTotal(r: Ratios, chi: real, rate: real)
    requires rate != 0.0
    ensures
      var p := PoolsOf(r, chi);
      AtRate(rate)(p.foundation + p.validators + p.developers - 0.0) ==
        chi * (r.foundation + r.validators + r.developers) / rate
  {
  }

  /** With an active validator, what is paid is exactly the used chi, less the burned
      ratio, at the chi rate; redirected developer shares are not lost. */
  lemma {:induction false} RewardConservation<N(!new)>(
      b: Book<N>, owner: N, r: Ratios, rate: real, chi: real, validators: seq<N>, contract: N,
      costs: Option<seq<Stake<N>>>)
    requires rate != 0.0 && chi > 0.0 && validators != [] && r.validators >= 0.0 && r.developers >= 0.0
    ensures Total(TxRecords(b, Setup(Some(r), Some(rate), Some(owner)), chi, validators, contract, costs)) ==
      chi * (r.foundation + r.validators + r.developers) / rate
  {
    ProductNonNegative(chi, r.validators);
    ProductNonNegative(chi, r.developers);
    PlanFair(b, owner, rate, validators, contract, costs);
    PlanConserves(PlanOf(b, owner, rate, validators, contract, costs), PoolsOf(r, chi));
    PoolsTotal(r, chi, rate);
  }

  lemma {:induction false} AtRateNonNegative(rate: real, x: real)
    requires rate > 0.0 && x >= 0.0
    ensures AtRate(rate)(x) >= 0.0
  {
  }

  lemma {:induction false} PayoutNonNegative<N(!new)>(
      owner: N, foundation: real, v: seq<Record<N>>, d: seq<Record<N>>, price: real -> real)
    requires forall x :: x >= 0.0 ==> price(x) >= 0.0
    requires foundation >= 0.0 && NonNegative(v) && NonNegative(d)
    ensures NonNegative(Payout(owner, foundation, v, d, price))
  {
    assert NonNegative(Priced(v, price)) && NonNegative(Priced(d, price));
  }

  lemma {:induction false} PartsSigned<N(!new)>(plan: Plan<N>, pools: Pools, due: real)
    requires Fair(plan) && pools.developers >= 0.0 && pools.validators >= 0.0
    requires due == pools.validators + RedirectedShares(plan, pools)
    ensures NonNegative(ValidatorPart(plan, due)) && NonNegative(DeveloperPart(plan, pools))
  {
    DeveloperPool(plan, pools);
    ValidatorPool(plan, due);
  }

  lemma {:induction false} PlanNonNegative<N(!new)>(plan: Plan<N>, pools: Pools)
    requires Fair(plan) && pools.foundation >= 0.0 && pools.developers >= 0.0 && pools.validators >= 0.0
    requires forall x :: x >= 0.0 ==> plan.price(x) >= 0.0
    ensures NonNegative(PlanRecords(plan, pools))
  {
    var due := pools.validators + RedirectedShares(plan, pools);
    PartsSigned(plan, pools, due);
    PartsNonNegative(plan, pools, due);
  }

  lemma {:induction false} PartsNonNegative<N(!new)>(plan: Plan<N>, pools: Pools, due: real)
    requires forall x :: x >= 0.0 ==> plan.price(x) >= 0.0
    requires pools.foundation >= 0.0 && NonNegative(ValidatorPart(plan, due)) && NonNegative(DeveloperPart(plan, pools))
    ensures NonNegative(PlanPayout(plan, pools, due))
  {
    PayoutNonNegative(plan.owner, pools.foundation, ValidatorPart(plan, due), DeveloperPart(plan, pools), plan.price);
  }

  lemma {:induction false} PoolsNonNegative(r: Ratios, chi: real)
    requires chi >= 0.0 && r.foundation >= 0.0 && r.validators >= 0.0 && r.developers >= 0.0
    ensures PoolsOf(r, chi).foundation >= 0.0 && PoolsOf(r, chi).validators >= 0.0 && PoolsOf(r, chi).developers >= 0.0
  {
    ProductNonNegative(r.foundation, chi);
    ProductNonNegative(chi, r.validators);
    ProductNonNegative(chi, r.developers);
  }

  lemma {:induction false} FairPlanNonNegative<N(!new)>(
      b: Book<N>, owner: N, rate: real, validators: seq<N>, contract: N, costs: Option<seq<Stake<N>>>, pools: Pools)
    requires rate > 0.0 && pools.foundation >= 0.0 && pools.validators >= 0.0 && pools.developers >= 0.0
    ensures NonNegative(PlanRecords(PlanOf(b, owner, rate, validators, contract, costs), pools))
  {
    var plan := PlanOf(b, owner, rate, validators, contract, costs);
    PlanFair(b, owner, rate, validators, contract, costs);
    forall x | x >= 0.0 ensures plan.price(x) >= 0.0 {
      AtRateNonNegative(rate, x);
    }
    PlanNonNegative(plan, pools);
  }

  /** Nobody is ever paid less than nothing. */
  lemma {:induction false} RewardsNonNegative<N(!new)>(
      b: Book<N>, owner: N, r: Ratios, rate: real, chi: real, validators: seq<N>, contract: N,
      costs: Option<seq<Stake<N>>>)
    requires rate > 0.0 && r.foundation >= 0.0 && r.validators >= 0.0 && r.developers >= 0.0
    ensures NonNegative(TxRecords(b, Setup(Some(r), Some(rate), Some(owner)), chi, validators, contract, costs))
  {
    if chi > 0.0 {
      PoolsNonNegative(r, chi);
      FairPlanNonNegative(b, owner, rate, validators, contract, costs, PoolsOf(r, chi));
    }
  }
}
