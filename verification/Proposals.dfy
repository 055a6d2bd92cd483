/** PrepareProposal, ProcessProposal and the decoding half of FinalizeBlock: three
    folds over raw transactions that must agree on what a valid block is. */
module Proposals {
  import opened Basics

  /** A decoded transaction.  `chi` is `None` when the supplied budget is no number. */
  datatype Tx<S> = Tx(sender: S, nonce: int, chi: Option<int>)

  datatype FeePolicy = FeePolicy(meterExecution: bool, maxTxChi: Option<int>, maxBlockChi: Option<int>) {
    /** Invalid and negative budgets raise. */
    function TxChi<S>(tx: Tx<S>): Option<int> {
      if tx.chi.Some? && tx.chi.value >= 0 then tx.chi else None
    }

    predicate TxAllowed<S>(tx: Tx<S>) {
      && TxChi(tx).Some?
      && (meterExecution ==> tx.chi.value > 0)
      && (maxTxChi.Some? ==> tx.chi.value <= maxTxChi.value)
    }

    predicate BlockAllowed(total: int) {
      maxBlockChi.Some? ==> total <= maxBlockChi.value
    }
  }

  /** Static decoding (format, signature, chain id), the size limit and the fee policy. */
  datatype Rules<!R, !S> = Rules(decode: R -> Option<Tx<S>>, size: R -> nat, maxRawBytes: nat, policy: FeePolicy)

  function Static<R, S>(rules: Rules<R, S>, raw: R): Option<Tx<S>> {
    if rules.size(raw) > rules.maxRawBytes then None else rules.decode(raw)
  }

  /** The accounting a handler carries along: nonces used so far, chi supplied so far. */
  datatype Running<S> = Running(latest: map<S, int>, chi: int)

  function NewRun<S>(): Running<S> {
    Running(map[], 0)
  }

  function ExpectedNonce<S>(committed: map<S, int>, latest: map<S, int>, sender: S): int {
    if sender in latest then latest[sender] + 1
    else if sender in committed then committed[sender] + 1
    else 0
  }

  /** The checks every handler makes on one transaction, in their order. */
  predicate Admits<R, S(==)>(rules: Rules<R, S>, committed: map<S, int>, run: Running<S>, raw: R) {
    var tx := Static(rules, raw);
    && tx.Some?
    && rules.policy.TxAllowed(tx.value)
    && rules.policy.BlockAllowed(run.chi + tx.value.chi.value)
    && tx.value.nonce == ExpectedNonce(committed, run.latest, tx.value.sender)
  }

  function Advance<R, S(==)>(rules: Rules<R, S>, run: Running<S>, raw: R): Running<S>
    requires Static(rules, raw).Some? && Static(rules, raw).value.chi.Some?
  {
    var tx := Static(rules, raw).value;
    Running(run.latest[tx.sender := tx.nonce], run.chi + tx.chi.value)
  }

  // -------------------------------------------------------------------- the three folds

  function Prepared<R, S(==)>(
      rules: Rules<R, S>, committed: map<S, int>, run: Running<S>, budget: int, raws: seq<R>): seq<R>
    decreases |raws|
  {
    if raws == [] then []
    else if rules.size(raws[0]) <= budget && Admits(rules, committed, run, raws[0]) then
      [raws[0]] + Prepared(rules, committed, Advance(rules, run, raws[0]), budget - rules.size(raws[0]), raws[1..])
    else
      Prepared(rules, committed, run, budget, raws[1..])
  }

  predicate Processed<R, S(==)>(rules: Rules<R, S>, committed: map<S, int>, run: Running<S>, raws: seq<R>)
    decreases |raws|
  {
    raws == [] ||
    (Admits(rules, committed, run, raws[0]) && Processed(rules, committed, Advance(rules, run, raws[0]), raws[1..]))
  }

  datatype Entry<R, S> = Accepted(tx: Tx<S>, raw: R) | Rejected(raw: R)

  function Decoded<R, S(==)>(
      rules: Rules<R, S>, committed: map<S, int>, run: Running<S>, raws: seq<R>): (entries: seq<Entry<R, S>>)
    ensures |entries| == |raws|
    decreases |raws|
  {
    if raws == [] then []
    else if Admits(rules, committed, run, raws[0]) then
      [Accepted(Static(rules, raws[0]).value, raws[0])]
      + Decoded(rules, committed, Advance(rules, run, raws[0]), raws[1..])
    else
      [Rejected(raws[0])] + Decoded(rules, committed, run, raws[1..])
  }

  // --------------------------------------------------------------- the live handlers

  class SequentialNonceTracker<!S(==)> {
    const committed: map<S, int>
    var latest: map<S, int>

    constructor (committed: map<S, int>)
      ensures this.committed == committed && latest == map[]
    {
      this.committed, latest := committed, map[];
    }

    method ValidateAndAdvance(tx: Tx<S>) returns (ok: bool)
      modifies this
      ensures ok <==> tx.nonce == ExpectedNonce(committed, old(latest), tx.sender)
      ensures latest == if ok then old(latest)[tx.sender := tx.nonce] else old(latest)
    {
      var current: Option<int> :=
        if tx.sender in latest then Some(latest[tx.sender])
        else if tx.sender in committed then Some(committed[tx.sender]) else None;
      var expected := if current.None? then 0 else current.value + 1;
      if tx.nonce != expected {
        return false;
      }
      latest := latest[tx.sender := tx.nonce];
      return true;
    }

    /** One transaction through decoding, fee policy, block total and nonce. */
    method Validate<R>(rules: Rules<R, S>, chi: int, raw: R) returns (next: Option<int>)
      modifies this
      ensures next.Some? <==> Admits(rules, committed, Running(old(latest), chi), raw)
      ensures next.None? ==> latest == old(latest)
      ensures next.Some? ==> Running(latest, next.value) == Advance(rules, Running(old(latest), chi), raw)
    {
      var tx := Static(rules, raw);
      if tx.None? || !rules.policy.TxAllowed(tx.value) {
        return None;
      }
      var total := chi + tx.value.chi.value;
      if !rules.policy.BlockAllowed(total) {
        return None;
      }
      var ok := ValidateAndAdvance(tx.value);
      return if ok then Some(total) else None;
    }
  }

  method PrepareProposal<R, S(==)>(
      rules: Rules<R, S>, committed: map<S, int>, raws: seq<R>, maxTxBytes: int) returns (txs: seq<R>)
    ensures txs == Prepared(rules, committed, NewRun(), maxTxBytes, raws)
  {
    var tracker := new SequentialNonceTracker(committed);
    txs := [];
    ghost var all := Prepared(rules, committed, NewRun(), maxTxBytes, raws);
    var blockChi, blockBytes, i := 0, 0, 0;
    while i < |raws|
      invariant 0 <= i <= |raws| && tracker.committed == committed && fresh(tracker)
      invariant
        var run := Running(tracker.latest, blockChi);
        txs + Prepared(rules, committed, run, maxTxBytes - blockBytes, raws[i..]) == all
    {
      var nextBytes := blockBytes + rules.size(raws[i]);
      assert raws[i..][1..] == raws[i + 1..];
      if nextBytes <= maxTxBytes {
        var next := tracker.Validate(rules, blockChi, raws[i]);
        if next.Some? {
          ghost var run := Running(tracker.latest, next.value);
          MoveOne(txs, raws[i], Prepared(rules, committed, run, maxTxBytes - nextBytes, raws[i + 1..]));
          txs, blockChi, blockBytes := txs + [raws[i]], next.value, nextBytes;
        }
      }
      i := i + 1;
    }
  }

  method ProcessProposal<R, S(==)>(rules: Rules<R, S>, committed: map<S, int>, raws: seq<R>) returns (accept: bool)
    ensures accept == Processed(rules, committed, NewRun(), raws)
  {
    var tracker := new SequentialNonceTracker(committed);
    var blockChi, i := 0, 0;
    while i < |raws|
      invariant 0 <= i <= |raws| && tracker.committed == committed && fresh(tracker)
      invariant Processed(rules, committed, Running(tracker.latest, blockChi), raws[i..])
        == Processed(rules, committed, NewRun(), raws)
    {
      var next := tracker.Validate(rules, blockChi, raws[i]);
      assert raws[i..][1..] == raws[i + 1..];
      if next.None? {
        return false;
      }
      blockChi, i := next.value, i + 1;
    }
    return true;
  }

  method DecodeBlockTransactions<R, S(==)>(
      rules: Rules<R, S>, committed: map<S, int>, raws: seq<R>) returns (entries: seq<Entry<R, S>>)
    ensures entries == Decoded(rules, committed, NewRun(), raws)
  {
    var tracker := new SequentialNonceTracker(committed);
    entries := [];
    ghost var all := Decoded(rules, committed, NewRun(), raws);
    var blockChi, i := 0, 0;
    while i < |raws|
      invariant 0 <= i <= |raws| && tracker.committed == committed && fresh(tracker)
      invariant entries + Decoded(rules, committed, Running(tracker.latest, blockChi), raws[i..]) == all
    {
      var next := tracker.Validate(rules, blockChi, raws[i]);
      assert raws[i..][1..] == raws[i + 1..];
      ghost var run := Running(tracker.latest, if next.Some? then next.value else blockChi);
      ghost var rest := Decoded(rules, committed, run, raws[i + 1..]);
      MoveOne(entries, if next.None? then Rejected(raws[i]) else Accepted(Static(rules, raws[i]).value, raws[i]), rest);
      if next.None? {
        entries := entries + [Rejected(raws[i])];
      } else {
        entries, blockChi := entries + [Accepted(Static(rules, raws[i]).value, raws[i])], next.value;
      }
      i := i + 1;
    }
  }
}
