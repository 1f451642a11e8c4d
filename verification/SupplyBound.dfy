/**
 * The supply bound along every good chain.
 *
 * Three things go unchecked in the source: repeated inputs, a need above 64 bits, and role sums above 64
 * bits. `ChainExcess` is what a chain gained by them. The bound holds for every chain up to its excess,
 * and `ChainExcessIff` says that there is none exactly on regular chains.
 */
module SupplyBound {
  import opened Types
  import opened Records
  import opened Emission
  import opened Flags
  import opened Ledger
  import opened Freshness
  import opened Supply
  import opened Chain

  /** No input twice, and a need that fits 64 bits. */
  ghost predicate RegularTx(tx: Tx) { DistinctInputs(tx) && NeedFits(tx) }

  /** Regular transactions, and role sums that fit 64 bits. */
  ghost predicate RegularBlock(b: Block) {
    SumsFit(b.coinbase) && forall i :: 0 <= i < |b.txs| ==> RegularTx(b.txs[i])
  }

  ghost predicate RegularChain(c: seq<Block>) { forall i :: 0 <= i < |c| ==> RegularBlock(c[i]) }

  // ---- Excess of a block and of a chain ----

  /** The UTXO set after the coinbase and `n` transactions. */
  function Held(u0: UtxoMap, cb: Tx, txs: seq<Tx>, n: nat, h: nat): UtxoMap
    requires n <= |txs|
  {
    Settle(SettleOne(u0, cb, h), txs, n, h)
  }

  ghost function TxsExcess(u0: UtxoMap, cb: Tx, txs: seq<Tx>, n: nat, h: nat): nat
    requires n <= |txs|
  {
    if n == 0 then 0
    else TxsExcess(u0, cb, txs, n - 1, h) + Excess(Held(u0, cb, txs, n - 1, h), txs[n - 1], h)
  }

  function MintExcessPi(outs: seq<CbOut>, h: nat): nat { MintExcess(outs) * Scale(h) }

  /** In pi, what a block gains by wrapped role sums and by its transactions. */
  ghost function BlockExcess(sha: Sha, s: State, b: Block): nat {
    MintExcessPi(b.coinbase, b.height) + TxsExcess(s.utxo, CoinbaseOf(sha, b), b.txs, |b.txs|, b.height)
  }

  ghost function ChainExcess(sha: Sha, c: seq<Block>): nat {
    if c == [] then 0 else
    var front := c[..|c| - 1];
    ChainExcess(sha, front) + (match Replay(front) case Some(s) => BlockExcess(sha, s, c[|c| - 1]) case None => 0)
  }

  // ---- The transactions of a block ----

  /** The ledger after the coinbase and `n` transactions. */
  function After(u0: UtxoMap, flags: seq<Flag>, cb: Tx, txs: seq<Tx>, n: nat, h: nat): State
    requires n <= |txs|
  {
    var staged := Stage(u0, flags, cb, txs, n, h);
    State(Held(u0, cb, txs, n, h), if staged.Some? then staged.value else flags)
  }

  lemma ConserveStep(sha: Sha, corpus: iset<Bytes>, past: seq<Tx>, u0: UtxoMap, flags: seq<Flag>,
                     cb: Tx, txs: seq<Tx>, n: nat, h: nat, early: nat)
    requires Setting(sha, corpus, past, cb, txs, h) && Inv(past, u0, h) && h >= 1
    requires n < |txs| && Stage(u0, flags, cb, txs, n + 1, h).Some?
    requires ClaimsFrom(After(u0, flags, cb, txs, n, h).flags, Ids(past + Prior(cb, txs, n)))
    requires h >= PI_HEIGHT ==> early <= |After(u0, flags, cb, txs, n, h).flags|
    ensures SupplyPi(After(u0, flags, cb, txs, n + 1, h), h, early) + txs[n].fee * Scale(h)
         <= SupplyPi(After(u0, flags, cb, txs, n, h), h, early) + Excess(Held(u0, cb, txs, n, h), txs[n], h)
    ensures |After(u0, flags, cb, txs, n, h).flags| <= |After(u0, flags, cb, txs, n + 1, h).flags|
    ensures ClaimsFrom(After(u0, flags, cb, txs, n + 1, h).flags, Ids(past + Prior(cb, txs, n + 1)))
  {
    hide ApplyTx;
    hide ApplyFlagTx;
    hide Spendable;
    hide Running;
    hide SupplyPi;
    hide Honest;
    hide Inv;
    hide Release;
    hide Excess;
    hide ClaimsFrom;
    hide ReplayTxs;
    hide Ids;
    var prior, tx, m := Prior(cb, txs, n), txs[n], After(u0, flags, cb, txs, n, h);
    TxsReplay(sha, corpus, past, u0, flags, cb, txs, n, h);
    PriorHonest(sha, corpus, past, cb, txs, n, h);
    TxStep(sha, corpus, past, u0, prior, m.utxo, tx, h, Release(tx, m.flags, prior));
    TxConserves(past, u0, prior, m, tx, h, early);
    assert past + prior + [tx] == past + Prior(cb, txs, n + 1);
  }

  /** The transactions of a block, together, lower the supply by at least their true fee total, less their excess. */
  lemma {:induction false} TxsConserve(sha: Sha, corpus: iset<Bytes>, past: seq<Tx>, u0: UtxoMap, flags: seq<Flag>,
                                       cb: Tx, txs: seq<Tx>, n: nat, h: nat, early: nat)
    requires Setting(sha, corpus, past, cb, txs, h) && Inv(past, u0, h) && h >= 1
    requires n <= |txs| && Stage(u0, flags, cb, txs, n, h).Some?
    requires ClaimsFrom(flags, Ids(past)) && (h >= PI_HEIGHT ==> early <= |flags|)
    ensures SupplyPi(After(u0, flags, cb, txs, n, h), h, early) + FeeSum(txs, n) * Scale(h)
         <= SupplyPi(State(SettleOne(u0, cb, h), flags), h, early) + TxsExcess(u0, cb, txs, n, h)
    ensures |flags| <= |After(u0, flags, cb, txs, n, h).flags|
    ensures ClaimsFrom(After(u0, flags, cb, txs, n, h).flags, Ids(past + Prior(cb, txs, n)))
  {
    hide SettleOne;
    hide SupplyPi;
    hide Setting;
    hide Inv;
    hide Excess;
    hide ApplyFlagTx;
    hide Spendable;
    if n == 0 {
      AppendOne(past, cb);
      assert Prior(cb, txs, 0) == [cb];
      assert FeeSum(txs, 0) * Scale(h) == 0;
    } else {
      hide ClaimsFrom;
      TxsConserve(sha, corpus, past, u0, flags, cb, txs, n - 1, h, early);
      ConserveStep(sha, corpus, past, u0, flags, cb, txs, n - 1, h, early);
      Spread(FeeSum(txs, n - 1), txs[n - 1].fee, Scale(h));
    }
  }

  lemma {:induction false} OutSumOfCoinbase(outs: seq<CbOut>)
    ensures OutSum(AsOuts(outs)) == TotalUnits(outs)
  {
    if outs != [] {
      OutSumOfCoinbase(outs[..|outs| - 1]);
      assert AsOuts(outs)[..|outs| - 1] == AsOuts(outs[..|outs| - 1]);
    }
  }

  /** The coinbase adds exactly its outputs. */
  lemma CoinbaseAdds(sha: Sha, corpus: iset<Bytes>, past: seq<Tx>, s: State, b: Block, early: nat)
    requires Setting(sha, corpus, past, CoinbaseOf(sha, b), b.txs, b.height) && Inv(past, s.utxo, b.height)
    requires InStoredForm(sha, b)
    ensures SupplyPi(State(SettleOne(s.utxo, CoinbaseOf(sha, b), b.height), s.flags), b.height, early)
         == SupplyPi(s, b.height, early) + TotalUnits(b.coinbase) * Scale(b.height)
  {
    hide Canonical;
    hide Honest;
    hide Ids;
    hide SpentIn;
    hide TotalPi;
    hide EscrowPi;
    hide ApplyTx;
    var cb := CoinbaseOf(sha, b);
    CoinbaseFresh(sha, corpus, past, cb);
    assert InPoints(cb) == {};
    ApplyTotal(s.utxo, cb, b.height);
    NonZeroIdempotent(b.coinbase);
    OutSumOfCoinbase(b.coinbase);
  }

  // ---- One block ----

  /** The premises under which a block is added to a chain with ledger `s` and history `past`. */
  ghost predicate Addable(K: Oracle, corpus: iset<Bytes>, past: seq<Tx>, s: State, b: Block) {
    && CollisionFree(K.sha, corpus) && b.height >= 1 && Sound(K, corpus, past, s, b.height - 1)
    && b.height < U32 && InStoredForm(K.sha, b) && InCorpus(K, corpus, b) && BodyOk(K, s, b)
  }

  ghost predicate FlagsReady(past: seq<Tx>, s: State, h: nat, early: nat) {
    ClaimsFrom(s.flags, Ids(past)) && (h >= PI_HEIGHT ==> early <= |s.flags|)
  }

  /** Fees come out of the supply that the block starts with and the coinbase it mints. */
  lemma BlockTotals(K: Oracle, corpus: iset<Bytes>, past: seq<Tx>, s: State, b: Block, early: nat)
    requires Addable(K, corpus, past, s, b) && FlagsReady(past, s, b.height, early)
    ensures StageBlock(K.sha, s, b).Some?
    ensures var t := SettleBlock(K.sha, s, b, StageBlock(K.sha, s, b).value);
            var cb := CoinbaseOf(K.sha, b);
            && SupplyPi(t, b.height, early) + FeeSum(b.txs, |b.txs|) * Scale(b.height)
               <= SupplyPi(s, b.height, early) + TotalUnits(b.coinbase) * Scale(b.height)
                  + TxsExcess(s.utxo, cb, b.txs, |b.txs|, b.height)
            && FlagsReady(past + [cb] + b.txs, t, b.height, early)
  {
    hide Sound;
    hide Setting;
    hide Inv;
    hide Stage;
    hide Settle;
    hide SettleOne;
    hide CoinbaseOf;
    hide SupplyPi;
    hide ClaimsFrom;
    hide Ids;
    hide TxsExcess;
    hide CoinbaseRefusal;
    hide Parsed;
    hide CollisionFree;
    hide InStoredForm;
    hide InCorpus;
    var cb := CoinbaseOf(K.sha, b);
    BlockSetting(K, corpus, past, s, b);
    TxsConserve(K.sha, corpus, past, s.utxo, s.flags, cb, b.txs, |b.txs|, b.height, early);
    CoinbaseAdds(K.sha, corpus, past, s, b, early);
    assert b.txs[..|b.txs|] == b.txs;
    assert past + Prior(cb, b.txs, |b.txs|) == past + [cb] + b.txs;
  }

  lemma Ordered(a: nat, b: nat, k: nat)
    requires a <= b
    ensures a * k <= b * k
  {
  }

  lemma FeeWordBelow(txs: seq<Tx>)
    ensures FeeWord(txs) <= FeeSum(txs, |txs|)
  {
    hide FeeSum;
  }

  /** What the coinbase of such a block may mint. */
  lemma MintBound(K: Oracle, corpus: iset<Bytes>, past: seq<Tx>, s: State, b: Block)
    requires Addable(K, corpus, past, s, b)
    ensures TotalUnits(b.coinbase) * Scale(b.height) + FeeShares(FeeWord(b.txs)).burn * Scale(b.height)
         <= SUBSIDY_PI + FeeWord(b.txs) * Scale(b.height) + MintExcess(b.coinbase) * Scale(b.height)
  {
    hide FeeShares;
    hide FeeSum;
    hide CoinbaseRefusal;
    hide Parsed;
    hide StageBlock;
    hide Sound;
    hide InStoredForm;
    hide InCorpus;
    hide CollisionFree;
    CoinbaseBound(b.height, FeeWord(b.txs), b.payout, K.foundation, b.coinbase, K.isPs1);
  }

  /** A block adds at most 218000 pi and its excess, less the burned share of its fees. */
  lemma BlockSupply(K: Oracle, corpus: iset<Bytes>, past: seq<Tx>, s: State, b: Block, early: nat)
    requires Addable(K, corpus, past, s, b) && FlagsReady(past, s, b.height, early)
    ensures StageBlock(K.sha, s, b).Some?
    ensures var t := SettleBlock(K.sha, s, b, StageBlock(K.sha, s, b).value);
            SupplyPi(t, b.height, early) + FeeShares(FeeWord(b.txs)).burn * Scale(b.height)
            <= SupplyPi(s, b.height, early) + SUBSIDY_PI + BlockExcess(K.sha, s, b)
  {
    hide Addable;
    hide FlagsReady;
    hide StageBlock;
    hide SettleBlock;
    hide SupplyPi;
    hide FeeShares;
    hide FeeSum;
    hide FeeWord;
    hide Scale;
    hide TotalUnits;
    hide TxsExcess;
    hide MintExcess;
    BlockTotals(K, corpus, past, s, b, early);
    MintBound(K, corpus, past, s, b);
    FeeWordBelow(b.txs);
    Ordered(FeeWord(b.txs), FeeSum(b.txs, |b.txs|), Scale(b.height));
  }

  // ---- The chain ----

  /** How many flags of the chain's book were locked in old units. */
  ghost function OldFlags(c: seq<Block>): nat {
    if |c| < PI_HEIGHT then 0 else
    match Replay(c[..PI_HEIGHT - 1]) case Some(s) => |s.flags| case None => 0
  }

  lemma {:induction false} EscrowAcross(flags: seq<Flag>, h: nat, before: nat, after: nat)
    requires h >= 1 && (h == PI_HEIGHT ==> |flags| <= after) && (h > PI_HEIGHT ==> before == after)
    ensures EscrowPi(flags, h, after) == EscrowPi(flags, h - 1, before)
  {
    if flags != [] { EscrowAcross(flags[..|flags| - 1], h, before, after); }
  }

  /** Within 218000 pi per block and `extra`, and every claim in the book made by a transaction of the chain. */
  ghost predicate Bounded(past: seq<Tx>, s: State, h: nat, early: nat, extra: nat) {
    SupplyPi(s, h, early) <= SUBSIDY_PI * h + extra && FlagsReady(past, s, h, early)
  }

  /** The same just before a block of height `h` is added. */
  ghost predicate Ready(past: seq<Tx>, s: State, h: nat, early: nat, extra: nat) {
    h >= 1 && SupplyPi(s, h, early) <= SUBSIDY_PI * (h - 1) + extra && FlagsReady(past, s, h, early)
  }

  /** The bound carries over to the next height, where the switch fixes which flags are old. */
  lemma BoundedAcross(past: seq<Tx>, s: State, h: nat, before: nat, after: nat, extra: nat)
    requires h >= 1 && Bounded(past, s, h - 1, before, extra)
    requires (h == PI_HEIGHT ==> after == |s.flags|) && (h > PI_HEIGHT ==> before == after)
    ensures Ready(past, s, h, after, extra)
  {
    hide TotalPi;
    hide EscrowPi;
    hide ClaimsFrom;
    hide Ids;
    EscrowAcross(s.flags, h, before, after);
  }

  lemma EmptyBounded()
    ensures Bounded([], EMPTY, 0, 0, 0)
  {
    hide TotalPi;
    hide EscrowPi;
    hide Ids;
    hide ClaimsFrom;
    NothingHeld();
    NothingClaimed(Ids([]));
  }

  lemma NothingClaimed(ids: set<Hash>)
    ensures ClaimsFrom([], ids)
  {
  }

  lemma NothingHeld()
    ensures TotalPi(map[]) == 0 && EscrowPi([], 0, 0) == 0
  {
  }

  lemma NoOldFlags()
    ensures OldFlags([]) == 0
  {
    hide Replay;
  }

  lemma BoundedStep(K: Oracle, corpus: iset<Bytes>, past: seq<Tx>, s: State, b: Block, early: nat, extra: nat)
    requires Addable(K, corpus, past, s, b) && Ready(past, s, b.height, early, extra)
    ensures ReplayStored(s, b).Some?
    ensures Bounded(past + [CoinbaseOf(K.sha, b)] + b.txs, ReplayStored(s, b).value, b.height, early,
                    extra + BlockExcess(K.sha, s, b))
  {
    hide BodyOk;
    hide InStoredForm;
    hide InCorpus;
    hide Sound;
    hide StageBlock;
    hide SettleBlock;
    hide ReplayStored;
    hide CoinbaseOf;
    hide CollisionFree;
    hide SupplyPi;
    hide FlagsReady;
    hide BlockExcess;
    hide FeeShares;
    ExtendSound(K, corpus, past, s, b);
    BlockTotals(K, corpus, past, s, b, early);
    BlockSupply(K, corpus, past, s, b, early);
  }

  /** The switch is read off the chain: `OldFlags` is fixed by the chain below height 3000. */
  lemma OldFlagsFixed(c: seq<Block>)
    requires c != [] && Replay(c[..|c| - 1]).Some?
    ensures |c| == PI_HEIGHT ==> OldFlags(c) == |Replay(c[..|c| - 1]).value.flags|
    ensures |c| > PI_HEIGHT ==> OldFlags(c) == OldFlags(c[..|c| - 1])
  {
    hide Replay;
    if |c| > PI_HEIGHT { assert c[..|c| - 1][..PI_HEIGHT - 1] == c[..PI_HEIGHT - 1]; }
  }

  lemma LastAddable(K: Oracle, W: World, c: seq<Block>)
    requires CollisionFree(K.sha, W.corpus) && W.exact && GoodChain(K, W, c) && c != []
    ensures var n := |c| - 1;
            && Replay(c[..n]).Some? && c[n].height == |c|
            && GoodChain(K, W, c[..n]) && Addable(K, W.corpus, History(K.sha, c[..n]), Replay(c[..n]).value, c[n])
  {
    hide BodyOk;
    hide InStoredForm;
    hide InCorpus;
    hide Sound;
    hide CollisionFree;
    hide Link;
    hide Extends;
    hide Alike;
    var n := |c| - 1;
    var t := LinkLedger(K, W, c[..n], c[n]);
    GoodChainSound(K, W, c[..n]);
    ExactAlike(W, Replay(c[..n]).value, t);
    ExtendsHeight(c[..n], c[n]);
  }

  lemma ExactAlike(W: World, s: State, t: State)
    requires W.exact && Alike(W, s, t)
    ensures s == t
  {
  }

  lemma ExtendsHeight(c: seq<Block>, b: Block)
    requires Extends(c, b)
    ensures b.height == |c| + 1
  {
    hide ChainDifficulty;
  }

  /**
   * Supply bound: along every good chain, the pi value of the UTXO set together with everything locked
   * in flags is at most 218000 pi per block plus the chain's excess, before, at and after the switch.
   */
  lemma {:induction false} SupplyBounded(K: Oracle, W: World, c: seq<Block>)
    requires CollisionFree(K.sha, W.corpus) && W.exact && GoodChain(K, W, c)
    ensures Replay(c).Some?
    ensures Bounded(History(K.sha, c), Replay(c).value, |c|, OldFlags(c), ChainExcess(K.sha, c))
  {
    hide GoodChain;
    hide Addable;
    hide Bounded;
    hide Ready;
    hide ReplayStored;
    hide CoinbaseOf;
    hide CollisionFree;
    hide OldFlags;
    hide BlockExcess;
    if c == [] {
      EmptyBounded();
      NoOldFlags();
    } else {
      var n := |c| - 1;
      LastAddable(K, W, c);
      SupplyBounded(K, W, c[..n]);
      var past, s, extra := History(K.sha, c[..n]), Replay(c[..n]).value, ChainExcess(K.sha, c[..n]);
      OldFlagsFixed(c);
      BoundedAcross(past, s, |c|, OldFlags(c[..n]), OldFlags(c), extra);
      BoundedStep(K, W.corpus, past, s, c[n], OldFlags(c), extra);
    }
  }

  // ---- Any world: what one more block adds ----

  lemma FlagsAcross(past: seq<Tx>, s: State, h: nat, before: nat, after: nat)
    requires h >= 1 && FlagsReady(past, s, h - 1, before)
    requires (h == PI_HEIGHT ==> after == |s.flags|) && (h > PI_HEIGHT ==> before == after)
    ensures FlagsReady(past, s, h, after)
  {
    hide ClaimsFrom;
    hide Ids;
  }

  lemma FlagsAlike(W: World, past: seq<Tx>, s: State, t: State, h: nat, early: nat)
    requires Alike(W, s, t)
    ensures FlagsReady(past, s, h, early) <==> FlagsReady(past, t, h, early)
  {
    hide ClaimsFrom;
    hide Ids;
  }

  lemma LinkAddable(K: Oracle, W: World, c: seq<Block>, b: Block, t: State)
    requires CollisionFree(K.sha, W.corpus) && GoodChain(K, W, c) && Link(K, W, c, b) && BodyOk(K, t, b)
    requires Replay(c).Some? && Alike(W, Replay(c).value, t)
    ensures Addable(K, W.corpus, History(K.sha, c), t, b) && b.height == |c| + 1
    ensures ReplayStored(Replay(c).value, b).Some? && StageBlock(K.sha, t, b).Some?
    ensures Alike(W, ReplayStored(Replay(c).value, b).value, SettleBlock(K.sha, t, b, StageBlock(K.sha, t, b).value))
  {
    hide BodyOk;
    hide InStoredForm;
    hide InCorpus;
    hide Sound;
    hide CollisionFree;
    hide GoodChain;
    hide Extends;
    hide Alike;
    hide StageBlock;
    hide SettleBlock;
    hide ReplayStored;
    hide Replay;
    var past, s := History(K.sha, c), Replay(c).value;
    ExtendsHeight(c, b);
    GoodChainSound(K, W, c);
    AlikeShape(W, s, t);
    SoundShape(K, W.corpus, past, s, t, |c|);
    ExtendAlike(K, W, past, s, t, b);
  }

  /** The book after any good chain holds claims made by its own transactions only. */
  lemma {:induction false} GoodFlags(K: Oracle, W: World, c: seq<Block>)
    requires CollisionFree(K.sha, W.corpus) && GoodChain(K, W, c)
    ensures Replay(c).Some? && FlagsReady(History(K.sha, c), Replay(c).value, |c|, OldFlags(c))
  {
    hide Link;
    hide BodyOk;
    hide Addable;
    hide Alike;
    hide FlagsReady;
    hide ReplayStored;
    hide CoinbaseOf;
    hide CollisionFree;
    hide OldFlags;
    hide StageBlock;
    hide SettleBlock;
    hide SupplyPi;
    if c == [] {
      EmptyBounded();
      NoOldFlags();
    } else {
      var n := |c| - 1;
      var d, b := c[..n], c[n];
      GoodFlags(K, W, d);
      var t := LinkLedger(K, W, d, b);
      var past, s := History(K.sha, d), Replay(d).value;
      LinkAddable(K, W, d, b, t);
      OldFlagsFixed(c);
      FlagsAcross(past, s, |c|, OldFlags(d), OldFlags(c));
      FlagsAlike(W, past, s, t, |c|, OldFlags(c));
      BlockTotals(K, W.corpus, past, t, b, OldFlags(c));
      FlagsAlike(W, History(K.sha, c), Replay(c).value, SettleBlock(K.sha, t, b, StageBlock(K.sha, t, b).value), |c|,
                 OldFlags(c));
    }
  }

  // ---- When there is no excess ----

  lemma SettlePositive(u: UtxoMap, tx: Tx, h: nat)
    requires Positive(u) && forall i :: 0 <= i < |tx.outputs| ==> tx.outputs[i].value > 0
    ensures Positive(SettleOne(u, tx, h))
  {
    hide Insert;
    var e, c := Erase(u, Spends(tx)), Credits(tx.txid, tx.outputs, h);
    InsertCredits(e, tx.txid, tx.outputs, |tx.outputs|, h);
    assert c[..|c|] == c;
  }

  lemma ExcessStep(sha: Sha, corpus: iset<Bytes>, past: seq<Tx>, u0: UtxoMap, flags: seq<Flag>,
                   cb: Tx, txs: seq<Tx>, n: nat, h: nat)
    requires Setting(sha, corpus, past, cb, txs, h) && Inv(past, u0, h) && h >= 1
    requires n < |txs| && Stage(u0, flags, cb, txs, n + 1, h).Some? && Positive(Held(u0, cb, txs, n, h))
    ensures Excess(Held(u0, cb, txs, n, h), txs[n], h) == 0 <==> RegularTx(txs[n])
  {
    hide ApplyTx;
    hide ApplyFlagTx;
    hide Spendable;
    hide View;
    hide Honest;
    hide Release;
    hide Excess;
    hide ReplayTxs;
    hide Ids;
    hide Positive;
    hide DistinctInputs;
    hide NeedFits;
    var prior, tx, u := Prior(cb, txs, n), txs[n], Held(u0, cb, txs, n, h);
    TxsReplay(sha, corpus, past, u0, flags, cb, txs, n, h);
    SpendsRunningSet(u0, prior, h, u, tx, Release(tx, Stage(u0, flags, cb, txs, n, h).value, prior));
    assert forall i :: 0 <= i < |tx.inputs| ==> Point(tx.inputs[i]) in InPoints(tx);
    Supply.NoExcessIff(u, tx, h);
  }

  ghost predicate PaysSomething(tx: Tx) { forall i :: 0 <= i < |tx.outputs| ==> tx.outputs[i].value > 0 }

  lemma {:induction false} TxsExcessIff(sha: Sha, corpus: iset<Bytes>, past: seq<Tx>, u0: UtxoMap, flags: seq<Flag>,
                                        cb: Tx, txs: seq<Tx>, n: nat, h: nat)
    requires Setting(sha, corpus, past, cb, txs, h) && Inv(past, u0, h) && h >= 1
    requires n <= |txs| && Stage(u0, flags, cb, txs, n, h).Some?
    requires Positive(u0) && PaysSomething(cb) && forall i :: 0 <= i < n ==> PaysSomething(txs[i])
    ensures Positive(Held(u0, cb, txs, n, h))
    ensures TxsExcess(u0, cb, txs, n, h) == 0 <==> forall i :: 0 <= i < n ==> RegularTx(txs[i])
  {
    hide SettleOne;
    hide Setting;
    hide Inv;
    hide Excess;
    hide ApplyFlagTx;
    hide Spendable;
    hide RegularTx;
    hide Positive;
    if n == 0 {
      SettlePositive(u0, cb, h);
    } else {
      TxsExcessIff(sha, corpus, past, u0, flags, cb, txs, n - 1, h);
      ExcessStep(sha, corpus, past, u0, flags, cb, txs, n - 1, h);
      SettlePositive(Held(u0, cb, txs, n - 1, h), txs[n - 1], h);
    }
  }

  lemma CoinbasePays(sha: Sha, b: Block)
    requires InStoredForm(sha, b)
    ensures PaysSomething(CoinbaseOf(sha, b))
  {
    hide Canonical;
    NonZeroIdempotent(b.coinbase);
  }

  lemma BodyPays(K: Oracle, s: State, b: Block)
    requires BodyOk(K, s, b)
    ensures forall i :: 0 <= i < |b.txs| ==> PaysSomething(b.txs[i])
    ensures forall i :: 0 <= i < |b.coinbase| ==> PayableRole(b.coinbase[i].role)
    ensures Stage(s.utxo, s.flags, CoinbaseOf(K.sha, b), b.txs, |b.txs|, b.height).Some?
  {
    hide Canonical;
    hide Stage;
    hide CoinbaseRefusal;
    hide CoinbaseOf;
    CoinbaseTotal(b.height, FeeWord(b.txs), b.payout, K.foundation, b.coinbase, K.isPs1);
  }

  lemma BlockExcessIff(K: Oracle, corpus: iset<Bytes>, past: seq<Tx>, s: State, b: Block)
    requires Addable(K, corpus, past, s, b) && Positive(s.utxo)
    ensures BlockExcess(K.sha, s, b) == 0 <==> RegularBlock(b)
    ensures ReplayStored(s, b).Some? && Positive(ReplayStored(s, b).value.utxo)
  {
    hide Setting;
    hide Inv;
    hide Stage;
    hide Settle;
    hide SettleOne;
    hide CoinbaseOf;
    hide TxsExcess;
    hide MintExcess;
    hide BodyOk;
    hide CollisionFree;
    hide InStoredForm;
    hide InCorpus;
    hide Sound;
    hide ReplayStored;
    hide Positive;
    hide PaysSomething;
    hide RegularTx;
    hide SumsFit;
    var cb := CoinbaseOf(K.sha, b);
    CoinbasePays(K.sha, b);
    BodyPays(K, s, b);
    BlockSetting(K, corpus, past, s, b);
    ExtendSound(K, corpus, past, s, b);
    TxsExcessIff(K.sha, corpus, past, s.utxo, s.flags, cb, b.txs, |b.txs|, b.height);
    Emission.NoExcessIff(b.coinbase);
  }

  /** A good chain has no excess if and only if it is regular. */
  lemma {:induction false} ChainExcessIff(K: Oracle, W: World, c: seq<Block>)
    requires CollisionFree(K.sha, W.corpus) && W.exact && GoodChain(K, W, c)
    ensures Replay(c).Some? && Positive(Replay(c).value.utxo)
    ensures ChainExcess(K.sha, c) == 0 <==> RegularChain(c)
  {
    hide GoodChain;
    hide Addable;
    hide ReplayStored;
    hide CollisionFree;
    hide BlockExcess;
    hide RegularChain;
    hide Positive;
    hide History;
    if c != [] {
      var n := |c| - 1;
      LastAddable(K, W, c);
      ChainExcessIff(K, W, c[..n]);
      BlockExcessIff(K, W.corpus, History(K.sha, c[..n]), Replay(c[..n]).value, c[n]);
      RegularSnoc(c);
    } else {
      NothingSpent();
    }
  }

  lemma RegularSnoc(c: seq<Block>)
    requires c != []
    ensures RegularChain(c) <==> RegularChain(c[..|c| - 1]) && RegularBlock(c[|c| - 1])
  {
    hide RegularBlock;
  }

  lemma NothingSpent()
    ensures Replay([]) == Some(EMPTY) && Positive(EMPTY.utxo) && RegularChain([])
  {
  }

  // ---- Fee arithmetic ----

  lemma FeeArithmetic(fees: nat, burn: nat, k: nat, supply: nat)
    requires fees * k + burn * k <= supply + fees % U64 * k
    requires 100 * burn >= 5 * (fees % U64) && k >= 1 && 1200 * supply < U64
    ensures fees * 60 < U64
  {
    var w := fees % U64;
    assert burn <= burn * k;
    assert (fees - w) * k == fees * k - w * k;
    assert fees - w <= (fees - w) * k;
    assert fees - w + burn <= supply;
  }

  lemma BlockFeesFit(K: Oracle, corpus: iset<Bytes>, past: seq<Tx>, s: State, b: Block, early: nat, extra: nat)
    requires Addable(K, corpus, past, s, b) && Ready(past, s, b.height, early, extra)
    requires 1200 * (SUBSIDY_PI * b.height + extra + BlockExcess(K.sha, s, b)) < U64
    ensures FeeSum(b.txs, |b.txs|) * 60 < U64
  {
    hide Addable;
    hide FlagsReady;
    hide StageBlock;
    hide SettleBlock;
    hide SupplyPi;
    hide FeeShares;
    hide FeeSum;
    hide TxsExcess;
    hide MintExcess;
    hide TotalUnits;
    BlockTotals(K, corpus, past, s, b, early);
    MintBound(K, corpus, past, s, b);
    BurnAtLeastFivePercent(FeeWord(b.txs));
    FeeArithmetic(FeeSum(b.txs, |b.txs|), FeeShares(FeeWord(b.txs)).burn, Scale(b.height),
                  SUBSIDY_PI * b.height + extra + BlockExcess(K.sha, s, b));
  }

  /**
   * The 64-bit fee arithmetic of an accepted block does not wrap, neither the total nor the product by
   * 60 behind the miner share, as long as the money the chain can have made is below 2^64 / 1200 pi.
   */
  lemma FeesNeverWrap(K: Oracle, W: World, c: seq<Block>)
    requires CollisionFree(K.sha, W.corpus) && W.exact && GoodChain(K, W, c) && c != []
    requires 1200 * (SUBSIDY_PI * |c| + ChainExcess(K.sha, c)) < U64
    ensures var b := c[|c| - 1]; FeeSum(b.txs, |b.txs|) * 60 < U64
  {
    hide GoodChain;
    hide Addable;
    hide Bounded;
    hide Ready;
    hide ReplayStored;
    hide CollisionFree;
    hide OldFlags;
    hide BlockExcess;
    hide FeeSum;
    var n := |c| - 1;
    LastAddable(K, W, c);
    SupplyBounded(K, W, c[..n]);
    var past, s, extra := History(K.sha, c[..n]), Replay(c[..n]).value, ChainExcess(K.sha, c[..n]);
    OldFlagsFixed(c);
    BoundedAcross(past, s, |c|, OldFlags(c[..n]), OldFlags(c), extra);
    BlockFeesFit(K, W.corpus, past, s, c[n], OldFlags(c), extra);
  }

  /** Without excess that is so at every 32-bit height. */
  lemma RegularFeesNeverWrap(K: Oracle, W: World, c: seq<Block>)
    requires CollisionFree(K.sha, W.corpus) && W.exact && GoodChain(K, W, c) && c != [] && RegularChain(c)
    ensures var b := c[|c| - 1]; FeeSum(b.txs, |b.txs|) * 60 < U64
  {
    hide GoodChain;
    hide CollisionFree;
    hide ChainExcess;
    hide RegularChain;
    hide FeeSum;
    hide Replay;
    LastHeightFits(K, W, c);
    ChainExcessIff(K, W, c);
    FeesNeverWrap(K, W, c);
  }

  lemma LastHeightFits(K: Oracle, W: World, c: seq<Block>)
    requires W.exact && GoodChain(K, W, c) && c != []
    ensures |c| < U32
  {
    hide BodyOk;
    hide InStoredForm;
    hide InCorpus;
    hide Replay;
    hide ChainDifficulty;
  }
}
