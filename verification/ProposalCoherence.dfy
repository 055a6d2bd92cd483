/** What the three proposal handlers guarantee one another, and what they accept. */
module ProposalCoherence {
  import opened Basics
  import opened Proposals

  // ------------------------------------------------ a valid block, said without a fold

  function FirstNonce<S>(committed: map<S, int>, sender: S): int {
    if sender in committed then committed[sender] + 1 else 0
  }

  function CountFrom<R, S(==)>(rules: Rules<R, S>, raws: seq<R>, sender: S): nat {
    if raws == [] then 0 else
      var last := Static(rules, raws[|raws| - 1]);
      CountFrom(rules, raws[..|raws| - 1], sender) + if last.Some? && last.value.sender == sender then 1 else 0
  }

  function TotalChi<R, S>(rules: Rules<R, S>, raws: seq<R>): int {
    if raws == [] then 0 else
      var last := Static(rules, raws[|raws| - 1]);
      TotalChi(rules, raws[..|raws| - 1]) + if last.Some? && last.value.chi.Some? then last.value.chi.value else 0
  }

  /** The limits of a fee policy on one transaction: a supplied budget that is a number, not
      negative, positive where execution is metered, and at most the limit per transaction. */
  ghost predicate WithinTxLimits<S>(policy: FeePolicy, tx: Tx<S>) {
    && tx.chi.Some? && tx.chi.value >= 0
    && (policy.meterExecution ==> tx.chi.value != 0)
    && (policy.maxTxChi.None? || tx.chi.value <= policy.maxTxChi.value)
  }

  /** The transaction is not too large, decodes, supplies chi within the limits for itself and
      for the block so far, and carries its sender's next nonce, counting from the committed
      one. */
  ghost predicate ValidAt<R, S>(rules: Rules<R, S>, committed: map<S, int>, raws: seq<R>, i: nat)
    requires i < |raws|
  {
    var tx, limit := rules.decode(raws[i]), rules.policy.maxBlockChi;
    && rules.size(raws[i]) <= rules.maxRawBytes && tx.Some?
    && WithinTxLimits(rules.policy, tx.value)
    && (limit.None? || TotalChi(rules, raws[..i + 1]) <= limit.value)
    && tx.value.nonce == FirstNonce(committed, tx.value.sender) + CountFrom(rules, raws[..i], tx.value.sender)
  }

  ghost predicate ValidBlock<R, S>(rules: Rules<R, S>, committed: map<S, int>, raws: seq<R>) {
    forall i :: 0 <= i < |raws| ==> ValidAt(rules, committed, raws, i)
  }

  /** The running accounts say what the transactions so far add up to. */
  ghost predicate Tracks<R, S(!new)>(rules: Rules<R, S>, committed: map<S, int>, run: Running<S>, before: seq<R>) {
    && run.chi == TotalChi(rules, before)
    && forall s :: ExpectedNonce(committed, run.latest, s) == FirstNonce(committed, s) + CountFrom(rules, before, s)
  }

  lemma {:induction false} AdvanceTracks<R, S(!new)>(
      rules: Rules<R, S>, committed: map<S, int>, run: Running<S>, before: seq<R>, raw: R)
    requires Tracks(rules, committed, run, before)
    ensures Admits(rules, committed, run, raw) <==> ValidAt(rules, committed, before + [raw], |before|)
    ensures Admits(rules, committed, run, raw) ==> Tracks(rules, committed, Advance(rules, run, raw), before + [raw])
  {
    var after := before + [raw];
    assert after[..|before|] == before && after[..|before| + 1] == after && after[|after| - 1] == raw;
  }

  lemma {:induction false} ProcessedFrom<R, S(!new)>(
      rules: Rules<R, S>, committed: map<S, int>, run: Running<S>, before: seq<R>, raws: seq<R>)
    requires Tracks(rules, committed, run, before)
    ensures Processed(rules, committed, run, raws) <==>
      forall i :: |before| <= i < |before| + |raws| ==> ValidAt(rules, committed, before + raws, i)
    decreases |raws|
  {
    if raws != [] {
      var all := before + raws;
      var next := before + [raws[0]];
      AdvanceTracks(rules, committed, run, before, raws[0]);
      assert all == next + raws[1..];
      SamePrefix(rules, committed, next, all, |before|);
      if Admits(rules, committed, run, raws[0]) {
        ProcessedFrom(rules, committed, Advance(rules, run, raws[0]), next, raws[1..]);
      } else {
        assert !ValidAt(rules, committed, all, |before|);
      }
    }
  }

  lemma {:induction false} SamePrefix<R, S(!new)>(
      rules: Rules<R, S>, committed: map<S, int>, short: seq<R>, long: seq<R>, i: nat)
    requires short <= long && i < |short|
    ensures ValidAt(rules, committed, short, i) <==> ValidAt(rules, committed, long, i)
  {
    assert short[..i] == long[..i] && short[..i + 1] == long[..i + 1];
  }

  /** ProcessProposal accepts exactly the valid blocks. */
  lemma {:induction false} ProcessAcceptsValid<R, S(!new)>(rules: Rules<R, S>, committed: map<S, int>, raws: seq<R>)
    ensures Processed(rules, committed, NewRun(), raws) <==> ValidBlock(rules, committed, raws)
  {
    ProcessedFrom(rules, committed, NewRun(), [], raws);
    assert [] + raws == raws;
  }

  // ------------------------------------------------------------------------- coherence

  function TotalSize<R, S>(rules: Rules<R, S>, raws: seq<R>): nat {
    if raws == [] then 0 else rules.size(raws[0]) + TotalSize(rules, raws[1..])
  }

  ghost predicate Subsequence<R>(short: seq<R>, long: seq<R>)
    decreases |long|
  {
    short == [] ||
    (long != [] && ((short[0] == long[0] && Subsequence(short[1..], long[1..])) || Subsequence(short, long[1..])))
  }

  /** What PrepareProposal returns fits the size limit, keeps the mempool's order, is
      accepted by ProcessProposal, and prepares to itself. */
  lemma {:induction false} PreparedIsCoherent<R, S(!new)>(
      rules: Rules<R, S>, committed: map<S, int>, run: Running<S>, budget: int, raws: seq<R>)
    ensures
      var txs := Prepared(rules, committed, run, budget, raws);
      && (txs == [] || TotalSize(rules, txs) <= budget)
      && Subsequence(txs, raws)
      && Processed(rules, committed, run, txs)
      && Prepared(rules, committed, run, budget, txs) == txs
    decreases |raws|
  {
    if raws != [] {
      if rules.size(raws[0]) <= budget && Admits(rules, committed, run, raws[0]) {
        var rest := Prepared(rules, committed, Advance(rules, run, raws[0]), budget - rules.size(raws[0]), raws[1..]);
        PreparedIsCoherent(rules, committed, Advance(rules, run, raws[0]), budget - rules.size(raws[0]), raws[1..]);
        assert ([raws[0]] + rest)[1..] == rest;
      } else {
        PreparedIsCoherent(rules, committed, run, budget, raws[1..]);
      }
    }
  }

  /** A proposal is accepted exactly when FinalizeBlock decodes it without a rejection,
      and an accepted proposal that fits is left alone by PrepareProposal. */
  lemma {:induction false} AcceptedDecodesClean<R, S(!new)>(
      rules: Rules<R, S>, committed: map<S, int>, run: Running<S>, raws: seq<R>)
    ensures Processed(rules, committed, run, raws) <==>
      forall e :: e in Decoded(rules, committed, run, raws) ==> e.Accepted?
    ensures Processed(rules, committed, run, raws) ==>
      forall budget :: TotalSize(rules, raws) <= budget ==> Prepared(rules, committed, run, budget, raws) == raws
    decreases |raws|
  {
    if raws != [] {
      if Admits(rules, committed, run, raws[0]) {
        var rest := Decoded(rules, committed, Advance(rules, run, raws[0]), raws[1..]);
        AcceptedDecodesClean(rules, committed, Advance(rules, run, raws[0]), raws[1..]);
        assert raws == [raws[0]] + raws[1..];
        assert forall e :: e in rest ==> e in Decoded(rules, committed, run, raws);
      } else {
        var entries := Decoded(rules, committed, run, raws);
        assert entries[0] == Rejected(raws[0]) && entries[0] in entries && !entries[0].Accepted?;
        assert !Processed(rules, committed, run, raws);
      }
    }
  }

  /** Decoding keeps every raw transaction in its place, and an accepted one as it decodes. */
  lemma {:induction false} EntriesFaithful<R, S(!new)>(
      rules: Rules<R, S>, committed: map<S, int>, run: Running<S>, raws: seq<R>)
    ensures
      var entries := Decoded(rules, committed, run, raws);
      forall i :: 0 <= i < |raws| ==>
        entries[i].raw == raws[i] && (entries[i].Accepted? ==> rules.decode(raws[i]) == Some(entries[i].tx))
    decreases |raws|
  {
    if raws != [] {
      var next := if Admits(rules, committed, run, raws[0]) then Advance(rules, run, raws[0]) else run;
      EntriesFaithful(rules, committed, next, raws[1..]);
      assert Decoded(rules, committed, run, raws)[1..] == Decoded(rules, committed, next, raws[1..]);
    }
  }

  function AcceptedRaws<R, S>(entries: seq<Entry<R, S>>): seq<R> {
    if entries == [] then []
    else (if entries[0].Accepted? then [entries[0].raw] else []) + AcceptedRaws(entries[1..])
  }

  /** On any block at all, FinalizeBlock executes what PrepareProposal would keep of it. */
  lemma {:induction false} DecodeKeepsPrepared<R, S(!new)>(
      rules: Rules<R, S>, committed: map<S, int>, run: Running<S>, budget: int, raws: seq<R>)
    requires TotalSize(rules, raws) <= budget
    ensures AcceptedRaws(Decoded(rules, committed, run, raws)) == Prepared(rules, committed, run, budget, raws)
    decreases |raws|
  {
    if raws != [] {
      var rest := if Admits(rules, committed, run, raws[0]) then Advance(rules, run, raws[0]) else run;
      var used := if Admits(rules, committed, run, raws[0]) then rules.size(raws[0]) else 0;
      DecodeKeepsPrepared(rules, committed, rest, budget - used, raws[1..]);
      assert Decoded(rules, committed, run, raws)[1..] == Decoded(rules, committed, rest, raws[1..]);
    }
  }

  /** The handlers put together: the proposer's block is valid, within bounds and accepted by all. */
  lemma {:induction false} ProposalCoherent<R, S(!new)>(
      rules: Rules<R, S>, committed: map<S, int>, raws: seq<R>, maxTxBytes: nat)
    ensures
      var txs := Prepared(rules, committed, NewRun(), maxTxBytes, raws);
      && TotalSize(rules, txs) <= maxTxBytes
      && ValidBlock(rules, committed, txs)
      && Processed(rules, committed, NewRun(), txs)
      && Prepared(rules, committed, NewRun(), maxTxBytes, txs) == txs
      && AcceptedRaws(Decoded(rules, committed, NewRun(), txs)) == txs
  {
    var txs := Prepared(rules, committed, NewRun(), maxTxBytes, raws);
    PreparedIsCoherent(rules, committed, NewRun(), maxTxBytes, raws);
    ProcessAcceptsValid(rules, committed, txs);
    DecodeKeepsPrepared(rules, committed, NewRun(), maxTxBytes, txs);
  }

  /** Every block that is accepted, and so every block that is proposed, keeps the fee policy:
      each transaction its own limits, all of them together the limit of the block. */
  lemma {:induction false} AcceptedWithinPolicy<R, S(!new)>(rules: Rules<R, S>, committed: map<S, int>, raws: seq<R>)
    requires Processed(rules, committed, NewRun(), raws)
    ensures forall i :: 0 <= i < |raws| ==>
      && rules.size(raws[i]) <= rules.maxRawBytes && rules.decode(raws[i]).Some?
      && WithinTxLimits(rules.policy, rules.decode(raws[i]).value)
    ensures raws != [] && rules.policy.maxBlockChi.Some? ==> TotalChi(rules, raws) <= rules.policy.maxBlockChi.value
  {
    ProcessAcceptsValid(rules, committed, raws);
    forall i | 0 <= i < |raws|
      ensures rules.size(raws[i]) <= rules.maxRawBytes && rules.decode(raws[i]).Some?
      ensures WithinTxLimits(rules.policy, rules.decode(raws[i]).value)
    {
      assert ValidAt(rules, committed, raws, i);
    }
    if raws != [] {
      assert ValidAt(rules, committed, raws, |raws| - 1);
      assert raws[..|raws| - 1 + 1] == raws;
    }
  }
}
