/** The flag book of a chain is a run of the book's own operations, in the order of the chain. */
module Escrow {
  import opened Types
  import opened Records
  import opened Flags
  import opened Ledger
  import opened Freshness
  import opened Supply
  import opened Admission
  import opened Shape
  import opened Chain
  import opened SupplyBound
  import opened Node
  import opened NodeInvariant
  import opened NodeRuns

  /** The operations of the first `n` transactions of a block. */
  ghost function TxOps(txs: seq<Tx>, n: nat, h: nat): seq<Op>
    requires n <= |txs|
  {
    if n == 0 then [] else
    TxOps(txs, n - 1, h) + (if txs[n - 1].flag.NoFlag? then [] else [FlagOpOf(txs[n - 1], h)])
  }

  /** The operations of a chain. */
  ghost function ChainOps(c: seq<Block>): seq<Op> {
    if c == [] then [] else
    ChainOps(c[..|c| - 1]) + TxOps(c[|c| - 1].txs, |c[|c| - 1].txs|, c[|c| - 1].height)
  }

  lemma {:induction false} RunPrefix(ops: seq<Op>, more: seq<Op>, n: nat)
    requires n <= |ops|
    ensures Run(ops + more, n) == Run(ops, n)
  {
    hide Apply;
    if n > 0 {
      RunPrefix(ops, more, n - 1);
      assert (ops + more)[n - 1] == ops[n - 1];
    }
  }

  lemma RunSnoc(ops: seq<Op>, op: Op)
    ensures Run(ops + [op], |ops| + 1) == Flags.After(Run(ops, |ops|), op)
  {
    hide Apply;
    RunPrefix(ops, [op], |ops|);
  }

  lemma {:induction false} TxsRun(ops: seq<Op>, s: State, txs: seq<Tx>, n: nat, h: nat)
    requires n <= |txs| && ReplayTxs(s, txs, n, h).Some? && s.flags == Run(ops, |ops|)
    ensures var all := ops + TxOps(txs, n, h); ReplayTxs(s, txs, n, h).value.flags == Run(all, |all|)
  {
    hide Apply;
    hide ApplyTx;
    hide FlagOpOf;
    if n == 0 {
      assert ops + TxOps(txs, 0, h) == ops;
    } else {
      TxsRun(ops, s, txs, n - 1, h);
      var front, tx := ops + TxOps(txs, n - 1, h), txs[n - 1];
      if tx.flag.NoFlag? {
        assert ops + TxOps(txs, n, h) == front;
      } else {
        assert ops + TxOps(txs, n, h) == front + [FlagOpOf(tx, h)];
        RunSnoc(front, FlagOpOf(tx, h));
      }
    }
  }

  /** Replaying a chain leaves the book that its operations leave. */
  lemma {:induction false} BookIsRun(c: seq<Block>)
    requires Replay(c).Some?
    ensures Replay(c).value.flags == Run(ChainOps(c), |ChainOps(c)|)
  {
    hide ReplayTxs;
    hide ApplyUtxos;
    hide ReadCredits;
    hide TxOps;
    hide Flags.After;
    if c != [] {
      var n := |c| - 1;
      BookIsRun(c[..n]);
      var s, b := Replay(c[..n]).value, c[n];
      var credits := if b.cbTxid.Some? then ReadCredits(b.cbTxid.value, b.coinbase, b.height) else [];
      TxsRun(ChainOps(c[..n]), State(ApplyUtxos(s.utxo, [], credits).value, s.flags), b.txs, |b.txs|, b.height);
    }
  }

  lemma {:induction false} TxOpsUnclaimed(txs: seq<Tx>, n: nat, h: nat)
    requires n <= |txs|
    ensures forall i :: 0 <= i < |TxOps(txs, n, h)| ==> Unclaimed(TxOps(txs, n, h)[i])
  {
    if n > 0 { TxOpsUnclaimed(txs, n - 1, h); }
  }

  lemma {:induction false} ChainOpsUnclaimed(c: seq<Block>)
    ensures forall i :: 0 <= i < |ChainOps(c)| ==> Unclaimed(ChainOps(c)[i])
  {
    hide TxOps;
    hide Unclaimed;
    if c != [] {
      var b := c[|c| - 1];
      ChainOpsUnclaimed(c[..|c| - 1]);
      TxOpsUnclaimed(b.txs, |b.txs|, b.height);
    }
  }

  // ---- A claim in a block ----

  lemma ClaimFresh(sha: Sha, corpus: iset<Bytes>, past: seq<Tx>, u0: UtxoMap, flags: seq<Flag>, cb: Tx, txs: seq<Tx>,
                   n: nat, h: nat)
    requires Setting(sha, corpus, past, cb, txs, h) && Inv(past, u0, h) && h >= 1 && n < |txs|
    requires Stage(u0, flags, cb, txs, n + 1, h).Some? && ClaimsFrom(flags, Ids(past))
    ensures ClaimsFrom(Stage(u0, flags, cb, txs, n, h).value, Ids(past + Prior(cb, txs, n)))
    ensures txs[n].txid !in Ids(past + Prior(cb, txs, n))
  {
    hide ApplyTx;
    hide Running;
    hide ApplyFlagTx;
    hide Spendable;
    hide Honest;
    hide Ids;
    hide ClaimsFrom;
    hide Inv;
    hide SupplyPi;
    hide Release;
    TxsConserve(sha, corpus, past, u0, flags, cb, txs, n, h, 0);
    TxsReplay(sha, corpus, past, u0, flags, cb, txs, n, h);
    PriorHonest(sha, corpus, past, cb, txs, n, h);
    var staged, prior := Stage(u0, flags, cb, txs, n, h).value, Prior(cb, txs, n);
    var u := Settle(ApplyTx(u0, cb, h).value, txs, n, h);
    TxStep(sha, corpus, past, u0, prior, u, txs[n], h, Release(txs[n], staged, prior));
  }

  /**
   * In every block that passes, a claim names a flag of the staged book; its counted inputs and the bounty of that flag
   * are what it needs, to the unit where they fit 64 bits; and exactly that bounty leaves that flag's escrow.
   */
  lemma StagedClaimPays(sha: Sha, corpus: iset<Bytes>, past: seq<Tx>, u0: UtxoMap, flags: seq<Flag>, cb: Tx,
                        txs: seq<Tx>, n: nat, h: nat) returns (i: nat)
    requires Setting(sha, corpus, past, cb, txs, h) && Inv(past, u0, h) && h >= 1 && n < |txs|
    requires Stage(u0, flags, cb, txs, n + 1, h).Some? && ClaimsFrom(flags, Ids(past)) && BookInv(flags)
    requires txs[n].flag.Claim?
    ensures var staged, fs := Stage(u0, flags, cb, txs, n, h).value, Stage(u0, flags, cb, txs, n + 1, h).value;
            var tx := txs[n];
            var v := InputValue(u0, Prior(cb, txs, n), tx.inputs, |tx.inputs|, h);
            && v.Some? && i < |staged| && staged[i].id == tx.flag.flagId
            && (v.value + staged[i].bounty < U64 ==> v.value + staged[i].bounty == Need(tx) % U64)
            && |fs| == |staged| && fs[i].escrow + staged[i].bounty == staged[i].escrow
            && PaidOnce(staged[i], fs[i], tx.flag.recipient, Some(tx.txid))
            && forall j :: 0 <= j < |fs| && j != i ==> fs[j] == staged[j]
  {
    hide Setting;
    hide Inv;
    hide ApplyTx;
    hide Running;
    hide View;
    hide BookInv;
    hide ClaimsFrom;
    hide Ids;
    hide Need;
    hide InputValue;
    hide Input;
    hide PaidOnce;
    hide Apply;
    hide BalanceOk;
    hide FlagOk;
    hide Settle;
    hide ReplayTxs;
    hide Release;
    var prior, tx := Prior(cb, txs, n), txs[n];
    ClaimFresh(sha, corpus, past, u0, flags, cb, txs, n, h);
    StageIff(sha, corpus, past, u0, flags, cb, txs, n, h);
    TxsReplay(sha, corpus, past, u0, flags, cb, txs, n, h);
    var t := State(Settle(ApplyTx(u0, cb, h).value, txs, n, h), Stage(u0, flags, cb, txs, n, h).value);
    RunningViews(past, u0, prior, t.utxo, h);
    SpendableIff(u0, prior, t, tx, h);
    InputValueIff(u0, prior, t.utxo, tx.inputs, |tx.inputs|, h);
    i := ClaimPaysOut(t, tx, h, Ids(past + prior));
  }

  // ---- The node's book ----

  /**
   * In every reachable state: each flag of the node's book was created on the active chain with the terms it has, each
   * claimant on it was put there by a claim of the active chain that was signed with the flag's awards key and
   * came within its expiry, and its escrow is the bounty times the claims left.
   */
  lemma RunBookAuthorised(K: Oracle, W: World, steps: seq<Step>, k: nat)
    requires CollisionFree(K.sha, W.corpus) && k <= |steps| && RunOk(K, W, steps, k)
    ensures var n := RunTo(K, steps, k);
            var ops := ChainOps(ActiveChain(n));
            BookInv(n.ledger.flags) && Accounted(ops, |ops|, n.ledger.flags)
  {
    hide RunTo;
    hide StepOk;
    hide StepAgrees;
    hide Restarted;
    hide CollisionFree;
    hide ActiveChain;
    hide ChainOps;
    hide Run;
    hide NodeInv;
    hide BookInv;
    hide Accounted;
    var n := RunTo(K, steps, k);
    NodeRuns.EveryRunKeepsInv(K, W, steps, k);
    var c := ActiveChain(n);
    FlagsFollow(K, W, n, c);
    BookIsRun(c);
    ChainOpsUnclaimed(c);
    EveryClaimAuthorised(ChainOps(c), |ChainOps(c)|);
    Flags.EveryRunKeepsInv(ChainOps(c), |ChainOps(c)|);
  }

  lemma FlagsFollow(K: Oracle, W: World, n: NodeState, c: seq<Block>)
    requires NodeInv(K, W, n, c)
    ensures Replay(c).Some? && Replay(c).value.flags == n.ledger.flags
  {
    hide ChainAt;
    hide StoreGood;
    hide GoodChain;
    hide Indexed;
    hide Listed;
    hide Placed;
    hide Replay;
    hide SameKeys;
  }
}
