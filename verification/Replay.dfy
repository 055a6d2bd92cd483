/** Replay safety: which transactions receive a finalized result over a whole chain. */
module Replay {
  import opened Basics
  import opened Proposals

  /** What became of a block entry: a finalized result that consumes the nonce, or an
      error result (rejected, raised during execution, or without a result or hash). */
  datatype TxResult<S> = Final(sender: S, nonce: int) | Error

  function Outcome<R, S>(entry: Entry<R, S>, executed: bool): TxResult<S> {
    if entry.Accepted? && executed then Final(entry.tx.sender, entry.tx.nonce) else Error
  }

  /** Result assembly walks the entries in block order ... */
  function Results<R, S>(entries: seq<Entry<R, S>>, executed: seq<bool>): seq<TxResult<S>>
    requires |entries| == |executed|
  {
    seq(|entries|, i requires 0 <= i < |entries| => Outcome(entries[i], executed[i]))
  }

  lemma {:induction false} ResultsFirst<R, S>(entries: seq<Entry<R, S>>, executed: seq<bool>)
    requires |entries| == |executed| && entries != []
    ensures
      var rest := Results(entries[1..], executed[1..]);
      Results(entries, executed) == [Outcome(entries[0], executed[0])] + rest && Results(entries, executed)[1..] == rest
  {
  }

  /** ... and sets the nonce of each transaction that executed, whatever is stored there. */
  function Stored<S>(nonces: map<S, int>, results: seq<TxResult<S>>): map<S, int>
    decreases |results|
  {
    if results == [] then nonces
    else Stored(if results[0].Final? then nonces[results[0].sender := results[0].nonce] else nonces, results[1..])
  }

  lemma {:induction false} StoredSplits<S>(nonces: map<S, int>, a: seq<TxResult<S>>, b: seq<TxResult<S>>)
    ensures Stored(nonces, a + b) == Stored(Stored(nonces, a), b)
    decreases |a|
  {
    if a == [] {
      assert a + b == b;
    } else {
      assert (a + b)[1..] == a[1..] + b;
      StoredSplits(if a[0].Final? then nonces[a[0].sender := a[0].nonce] else nonces, a[1..], b);
    }
  }

  class NonceLedger<!S(==)> {
    var nonces: map<S, int>

    method AssembleTxResults<R>(entries: seq<Entry<R, S>>, executed: seq<bool>) returns (results: seq<TxResult<S>>)
      requires |entries| == |executed|
      modifies this
      ensures results == Results(entries, executed)
      ensures nonces == Stored(old(nonces), results)
      ensures forall i :: 0 <= i < |entries| && entries[i].Accepted? && executed[i] ==>
                results[i] == Final(entries[i].tx.sender, entries[i].tx.nonce)
      ensures forall i :: 0 <= i < |entries| && !(entries[i].Accepted? && executed[i]) ==> results[i] == Error
    {
      results := [];
      var i := 0;
      while i < |entries|
        invariant 0 <= i <= |entries|
        invariant results == Results(entries[..i], executed[..i])
        invariant nonces == Stored(old(nonces), results)
      {
        StoredSplits(old(nonces), results, [Outcome(entries[i], executed[i])]);
        if entries[i].Accepted? && executed[i] {
          var tx := entries[i].tx;
          nonces := nonces[tx.sender := tx.nonce];
          results := results + [Final(tx.sender, tx.nonce)];
        } else {
          results := results + [Error];
        }
        i := i + 1;
      }
      assert entries[..i] == entries && executed[..i] == executed;
    }
  }

  // ------------------------------------------------------------------- what a block keeps

  /** Every tracked nonce is ahead of the stored one. */
  ghost predicate Ahead<S(!new)>(committed: map<S, int>, run: Running<S>, nonces: map<S, int>) {
    forall s :: s in nonces ==> nonces[s] < ExpectedNonce(committed, run.latest, s)
  }

  ghost predicate NeverBack<S(!new)>(before: map<S, int>, after: map<S, int>) {
    forall s :: s in before ==> s in after && before[s] <= after[s]
  }

  /** Results so far are all at or below the stored nonces, and no two are the same. */
  ghost predicate Consumed<S(!new)>(nonces: map<S, int>, results: seq<TxResult<S>>) {
    && (forall i :: 0 <= i < |results| && results[i].Final? ==>
         results[i].sender in nonces && results[i].nonce <= nonces[results[i].sender])
    && (forall i, j :: 0 <= i < j < |results| && results[i].Final? ==> results[i] != results[j])
  }

  ghost predicate AllAbove<S(!new)>(nonces: map<S, int>, results: seq<TxResult<S>>) {
    forall i :: 0 <= i < |results| && results[i].Final? && results[i].sender in nonces ==>
      nonces[results[i].sender] < results[i].nonce
  }

  lemma {:induction false} ConsumeOne<S(!new)>(nonces: map<S, int>, history: seq<TxResult<S>>, sender: S, nonce: int)
    requires Consumed(nonces, history)
    requires sender in nonces ==> nonces[sender] < nonce
    ensures Consumed(nonces[sender := nonce], history + [Final(sender, nonce)])
    ensures NeverBack(nonces, nonces[sender := nonce])
  {
  }

  lemma {:induction false} ConsumeNothing<S(!new)>(nonces: map<S, int>, history: seq<TxResult<S>>)
    requires Consumed(nonces, history)
    ensures Consumed(nonces, history + [Error])
  {
  }

  /** The nonces a block finalizes are above those stored when it began. */
  lemma {:induction false} BlockConsumes<R, S(!new)>(
      rules: Rules<R, S>, committed: map<S, int>, run: Running<S>, raws: seq<R>,
      nonces: map<S, int>, executed: seq<bool>, history: seq<TxResult<S>>)
    requires |executed| == |raws|
    requires Ahead(committed, run, nonces) && Consumed(nonces, history)
    ensures
      var results := Results(Decoded(rules, committed, run, raws), executed);
      && NeverBack(nonces, Stored(nonces, results))
      && AllAbove(nonces, results)
      && Consumed(Stored(nonces, results), history + results)
    decreases |raws|
  {
    var entries := Decoded(rules, committed, run, raws);
    if raws == [] {
      assert history + [] == history;
    } else {
      var next := if Admits(rules, committed, run, raws[0]) then Advance(rules, run, raws[0]) else run;
      assert entries[1..] == Decoded(rules, committed, next, raws[1..]);
      var results := Results(entries, executed);
      var rest := Results(entries[1..], executed[1..]);
      ResultsFirst(entries, executed);
      assert history + results == history + [results[0]] + rest;
      if results[0].Final? {
        var tx := entries[0].tx;
        ConsumeOne(nonces, history, tx.sender, tx.nonce);
        var consumed := nonces[tx.sender := tx.nonce];
        BlockConsumes(rules, committed, next, raws[1..], consumed, executed[1..], history + [results[0]]);
      } else {
        ConsumeNothing(nonces, history);
        BlockConsumes(rules, committed, next, raws[1..], nonces, executed[1..], history + [results[0]]);
      }
    }
  }

  // -------------------------------------------------------------------------- whole chains

  /** A decided block, and which of its entries execute to a result. */
  datatype ChainBlock<R> = ChainBlock(raws: seq<R>, executed: seq<bool>)

  ghost predicate WellFormed<R>(blocks: seq<ChainBlock<R>>) {
    forall i :: 0 <= i < |blocks| ==> |blocks[i].executed| == |blocks[i].raws|
  }

  function BlockResults<R, S(==)>(rules: Rules<R, S>, nonces: map<S, int>, b: ChainBlock<R>): seq<TxResult<S>>
    requires |b.executed| == |b.raws|
  {
    Results(Decoded(rules, nonces, NewRun(), b.raws), b.executed)
  }

  function ChainResults<R, S(==)>(rules: Rules<R, S>, nonces: map<S, int>, blocks: seq<ChainBlock<R>>): seq<TxResult<S>>
    requires WellFormed(blocks)
    decreases |blocks|
  {
    if blocks == [] then [] else
      var results := BlockResults(rules, nonces, blocks[0]);
      results + ChainResults(rules, Stored(nonces, results), blocks[1..])
  }

  lemma {:induction false} OneAfterAnother<S(!new)>(
      nonces: map<S, int>, middle: map<S, int>, after: map<S, int>, first: seq<TxResult<S>>, later: seq<TxResult<S>>)
    requires NeverBack(nonces, middle) && NeverBack(middle, after)
    requires AllAbove(nonces, first) && AllAbove(middle, later)
    ensures NeverBack(nonces, after) && AllAbove(nonces, first + later)
  {
    forall s | s in nonces ensures s in after && nonces[s] <= after[s] {
      assert s in middle;
    }
  }

  /** What results keep of the nonces stored before them and of the results before. */
  ghost predicate Keeps<S(!new)>(nonces: map<S, int>, history: seq<TxResult<S>>, results: seq<TxResult<S>>) {
    && NeverBack(nonces, Stored(nonces, results))
    && AllAbove(nonces, results)
    && Consumed(Stored(nonces, results), history + results)
  }

  lemma {:induction false} BlockKeeps<R, S(!new)>(
      rules: Rules<R, S>, nonces: map<S, int>, b: ChainBlock<R>, history: seq<TxResult<S>>)
    requires |b.executed| == |b.raws| && Consumed(nonces, history)
    ensures Keeps(nonces, history, BlockResults(rules, nonces, b))
  {
    BlockConsumes(rules, nonces, NewRun(), b.raws, nonces, b.executed, history);
  }

  lemma {:induction false} KeepsBoth<S(!new)>(
      nonces: map<S, int>, history: seq<TxResult<S>>, first: seq<TxResult<S>>, later: seq<TxResult<S>>)
    requires Keeps(nonces, history, first) && Keeps(Stored(nonces, first), history + first, later)
    ensures Keeps(nonces, history, first + later)
  {
    StoredSplits(nonces, first, later);
    OneAfterAnother(nonces, Stored(nonces, first), Stored(nonces, first + later), first, later);
    assert history + first + later == history + (first + later);
  }

  lemma {:induction false} ChainConsumes<R, S(!new)>(
      rules: Rules<R, S>, nonces: map<S, int>, blocks: seq<ChainBlock<R>>, history: seq<TxResult<S>>)
    requires WellFormed(blocks) && Consumed(nonces, history)
    ensures Keeps(nonces, history, ChainResults(rules, nonces, blocks))
    decreases |blocks|
  {
    if blocks == [] {
      assert history + [] == history;
    } else {
      var first := BlockResults(rules, nonces, blocks[0]);
      BlockKeeps(rules, nonces, blocks[0], history);
      ChainConsumes(rules, Stored(nonces, first), blocks[1..], history + first);
      KeepsBoth(nonces, history, first, ChainResults(rules, Stored(nonces, first), blocks[1..]));
    }
  }

  /** Over any chain of blocks no (sender, nonce) pair is finalized twice, no stored
      nonce decreases, and every finalized nonce exceeds the one stored at the start. */
  lemma {:induction false} ReplaySafety<R, S(!new)>(rules: Rules<R, S>, nonces: map<S, int>, blocks: seq<ChainBlock<R>>)
    requires WellFormed(blocks)
    ensures
      var results := ChainResults(rules, nonces, blocks);
      && NeverBack(nonces, Stored(nonces, results))
      && (forall i, j :: 0 <= i < j < |results| && results[i].Final? ==> results[i] != results[j])
      && AllAbove(nonces, results)
  {
    ChainConsumes(rules, nonces, blocks, []);
    assert [] + ChainResults(rules, nonces, blocks) == ChainResults(rules, nonces, blocks);
  }

  // ------------------------------------------------------------------------------ executions

  /** A transaction of the block that was executed, said of the decoded entries alone. */
  datatype Execution<S> = Execution(sender: S, nonce: int)

  function Executions<R, S>(entries: seq<Entry<R, S>>, executed: seq<bool>): seq<Option<Execution<S>>>
    requires |entries| == |executed|
  {
    seq(|entries|, i requires 0 <= i < |entries| =>
      if entries[i].Accepted? && executed[i] then Some(Execution(entries[i].tx.sender, entries[i].tx.nonce)) else None)
  }

  /** The executions of a chain, each block decoded against the nonces the blocks before it
      have stored. */
  function ChainExecutions<R, S(==)>(
      rules: Rules<R, S>, nonces: map<S, int>, blocks: seq<ChainBlock<R>>): seq<Option<Execution<S>>>
    requires WellFormed(blocks)
    decreases |blocks|
  {
    if blocks == [] then [] else
      Executions(Decoded(rules, nonces, NewRun(), blocks[0].raws), blocks[0].executed)
      + ChainExecutions(rules, Stored(nonces, BlockResults(rules, nonces, blocks[0])), blocks[1..])
  }

  /** Executed transactions are the ones with a finalized result. */
  lemma {:induction false} ExecutedAreFinal<R, S(!new)>(
      rules: Rules<R, S>, nonces: map<S, int>, blocks: seq<ChainBlock<R>>)
    requires WellFormed(blocks)
    ensures
      var executions, results := ChainExecutions(rules, nonces, blocks), ChainResults(rules, nonces, blocks);
      && |executions| == |results|
      && forall i :: 0 <= i < |results| ==>
           if executions[i].Some? then results[i] == Final(executions[i].value.sender, executions[i].value.nonce)
           else results[i] == Error
    decreases |blocks|
  {
    if blocks != [] {
      var results := BlockResults(rules, nonces, blocks[0]);
      ExecutedAreFinal(rules, Stored(nonces, results), blocks[1..]);
    }
  }

  /** Over any chain of blocks no transaction is executed twice: no two executions have the
      same sender and nonce, and none a nonce at or below the one stored at the start. */
  lemma {:induction false} ExecutedOnce<R, S(!new)>(
      rules: Rules<R, S>, nonces: map<S, int>, blocks: seq<ChainBlock<R>>)
    requires WellFormed(blocks)
    ensures
      var executions := ChainExecutions(rules, nonces, blocks);
      && (forall i, j :: 0 <= i < j < |executions| && executions[i].Some? ==> executions[i] != executions[j])
      && (forall i :: 0 <= i < |executions| && executions[i].Some? && executions[i].value.sender in nonces ==>
            nonces[executions[i].value.sender] < executions[i].value.nonce)
  {
    ExecutedAreFinal(rules, nonces, blocks);
    ReplaySafety(rules, nonces, blocks);
    var executions, results := ChainExecutions(rules, nonces, blocks), ChainResults(rules, nonces, blocks);
    forall i, j | 0 <= i < j < |executions| && executions[i].Some? ensures executions[i] != executions[j] {
      assert results[i] != results[j];
    }
  }

  /** The nonces stored after a chain: of each sender the last one executed, or the old one. */
  lemma {:induction false} StoredIsLastExecuted<S(!new)>(nonces: map<S, int>, results: seq<TxResult<S>>, sender: S)
    ensures
      var after := Stored(nonces, results);
      || (Lookup(after, sender) == Lookup(nonces, sender)
          && forall i :: 0 <= i < |results| && results[i].Final? ==> results[i].sender != sender)
      || exists i :: 0 <= i < |results| && results[i].Final? && results[i].sender == sender
           && Lookup(after, sender) == Some(results[i].nonce)
           && forall j :: i < j < |results| && results[j].Final? ==> results[j].sender != sender
    decreases |results|
  {
    if results != [] {
      var next := if results[0].Final? then nonces[results[0].sender := results[0].nonce] else nonces;
      StoredIsLastExecuted(next, results[1..], sender);
      var rest := results[1..];
      if i :| 0 <= i < |rest| && rest[i].Final? && rest[i].sender == sender
            && Lookup(Stored(nonces, results), sender) == Some(rest[i].nonce)
            && forall j :: i < j < |rest| && rest[j].Final? ==> rest[j].sender != sender
      {
        assert results[i + 1] == rest[i];
        assert forall j :: i + 1 < j < |results| ==> results[j] == rest[j - 1];
      } else {
        assert forall j :: 0 < j < |results| ==> results[j] == rest[j - 1];
        if results[0].Final? && results[0].sender == sender {
          assert Lookup(Stored(nonces, results), sender) == Some(results[0].nonce);
        }
      }
    }
  }
}
