/** What the chain theorems say about every reachable node state. */
module NodeTheorems {
  import opened Types
  import opened Emission
  import opened Ledger
  import opened Freshness
  import opened Supply
  import opened SupplyBound
  import opened Shape
  import opened Chain
  import opened Node
  import opened NodeInvariant
  import opened NodeReplay
  import opened NodeAdopt
  import opened NodeRuns

  /** The "UTXO update failed" branches of `rpc_submitblock` are dead: after validation every update succeeds. */
  lemma SettlingNeverFails(K: Oracle, W: World, env: Env, n: NodeState, c: seq<Block>, b: Block)
    requires CollisionFree(K.sha, W.corpus) && NodeInv(K, W, n, c) && MayStore(K, W, b)
    requires SubmitRefusal(K, env, n, b).None?
    ensures var cb := CoinbaseOf(K.sha, b);
            && ApplyTx(n.ledger.utxo, cb, b.height).Some?
            && forall k :: 0 <= k < |b.txs| ==>
                 var u := Settle(ApplyTx(n.ledger.utxo, cb, b.height).value, b.txs, k, b.height);
                 ApplyTx(u, b.txs[k], b.height).Some?
  {
    hide ChainAt;
    hide StoreGood;
    hide GoodChain;
    hide Indexed;
    hide Listed;
    hide HeightsOf;
    hide ApplyTx;
    hide Stage;
    hide ReplayTxs;
    hide Settle;
    hide Running;
    hide CoinbaseOf;
    hide CoinbaseRefusal;
    hide Setting;
    hide Sound;
    hide InCorpus;
    hide CollisionFree;
    hide HeaderRefusal;
    hide SealRefusal;
    hide Parsed;
    hide NonZero;
    hide Alike;
    hide SameShape;
    hide Replay;
    PassingHeight(K, W, env, n, c, b);
    GoodChainSound(K, W, c);
    var past := History(K.sha, c);
    AlikeShape(W, Replay(c).value, n.ledger);
    SoundShape(K, W.corpus, past, Replay(c).value, n.ledger, |c|);
    BlockSetting(K, W.corpus, past, n.ledger, b);
    TxsReplay(K.sha, W.corpus, past, n.ledger.utxo, n.ledger.flags, CoinbaseOf(K.sha, b), b.txs, |b.txs|, b.height);
  }

  /**
   * Supply bound over every run: at tip height h the UTXO set and all locked escrow are worth at most
   * 218000 * h pi and the excess of the active chain, which is zero exactly if that chain is regular.
   */
  lemma RunSupplyBounded(K: Oracle, W: World, steps: seq<Step>, k: nat)
    requires W.exact && CollisionFree(K.sha, W.corpus) && k <= |steps| && RunOk(K, W, steps, k)
    ensures var n := RunTo(K, steps, k);
            var c := ActiveChain(n);
            && SupplyPi(n.ledger, n.bestHeight, OldFlags(c)) <= SUBSIDY_PI * n.bestHeight + ChainExcess(K.sha, c)
            && (ChainExcess(K.sha, c) == 0 <==> RegularChain(c))
  {
    hide ChainAt;
    hide StoreGood;
    hide GoodChain;
    hide Indexed;
    hide Listed;
    hide HeightsOf;
    hide RunTo;
    hide StepOk;
    hide Restarted;
    hide StepAgrees;
    hide Replay;
    hide SupplyPi;
    hide CollisionFree;
    hide ActiveChain;
    hide RegularChain;
    hide ChainExcess;
    hide History;
    hide OldFlags;
    EveryRunKeepsInv(K, W, steps, k);
    var c := ActiveChain(RunTo(K, steps, k));
    ExactFollows(K, W, RunTo(K, steps, k), c);
    SupplyBounded(K, W, c);
    ChainExcessIff(K, W, c);
  }

  /**
   * In any world, whatever copies were stored: an accepted block raises what the node's own ledger holds, UTXO set
   * and escrow, by at most 218000 pi and the excess of the block, less the burned share of its fees.
   */
  lemma SubmitSupply(K: Oracle, W: World, env: Env, n: NodeState, c: seq<Block>, b: Block)
    requires CollisionFree(K.sha, W.corpus) && NodeInv(K, W, n, c) && MayStore(K, W, b)
    requires SubmitOutcome(K, env, n, b) == Accepted
    ensures var y := Stored(K.sha, b);
            var early := OldFlags(c + [y]);
            SupplyPi(Submit(K, env, n, b).ledger, y.height, early) + FeeShares(FeeWord(y.txs)).burn * Scale(y.height)
            <= SupplyPi(n.ledger, y.height, early) + SUBSIDY_PI + BlockExcess(K.sha, n.ledger, y)
  {
    hide NodeInv;
    hide MayStore;
    hide CollisionFree;
    hide SubmitRefusal;
    hide SubmitOutcome;
    hide Submit;
    hide Stored;
    hide Link;
    hide BodyOk;
    hide GoodChain;
    hide StageBlock;
    hide SettleBlock;
    hide SupplyPi;
    hide FeeShares;
    hide FeeWord;
    hide BlockExcess;
    hide OldFlags;
    hide Replay;
    hide Alike;
    hide Addable;
    hide FlagsReady;
    hide StoreBlock;
    var y, past := Stored(K.sha, b), History(K.sha, c);
    AcceptedConnects(K, W, env, n, c, b);
    FollowsChain(K, W, n, c);
    var d, s := c + [y], Replay(c).value;
    LinkAddable(K, W, c, y, n.ledger);
    GoodFlags(K, W, c);
    assert d[..|d| - 1] == c;
    OldFlagsFixed(d);
    FlagsAcross(past, s, |d|, OldFlags(c), OldFlags(d));
    FlagsAlike(W, past, s, n.ledger, |d|, OldFlags(d));
    BlockSupply(K, W.corpus, past, n.ledger, y, OldFlags(d));
  }

  lemma FollowsChain(K: Oracle, W: World, n: NodeState, c: seq<Block>)
    requires NodeInv(K, W, n, c)
    ensures GoodChain(K, W, c) && Replay(c).Some? && Alike(W, Replay(c).value, n.ledger)
  {
    hide ChainAt;
    hide StoreGood;
    hide GoodChain;
    hide Indexed;
    hide Listed;
    hide Replay;
    hide Alike;
  }

  /**
   * Chain index over every run: walking parents from the tip visits the height index from the best
   * height down to 1 and ends at the zero hash; timestamps and difficulties are those of a good chain.
   */
  lemma RunIndexWalks(K: Oracle, W: World, steps: seq<Step>, k: nat, h: nat)
    requires CollisionFree(K.sha, W.corpus) && k <= |steps| && RunOk(K, W, steps, k)
    requires 1 <= h <= RunTo(K, steps, k).bestHeight
    ensures var n := RunTo(K, steps, k);
            && |n.heights| == n.bestHeight + 1 && n.heights[n.bestHeight] == n.bestHash
            && n.heights[h] in n.headers
            && n.headers[n.heights[h]].height == h
            && n.headers[n.heights[h]].prev == (if h == 1 then ZERO else n.heights[h - 1])
            && Retarget.MIN_BITS <= n.headers[n.heights[h]].difficulty <= Retarget.MAX_BITS
            && (h <= 10 ==> n.headers[n.heights[h]].difficulty == 4)
            && (h > 1 ==> n.heights[h - 1] in n.headers
                          && n.headers[n.heights[h - 1]].timestamp < n.headers[n.heights[h]].timestamp)
  {
    hide RunTo;
    hide StepOk;
    hide Restarted;
    hide StepAgrees;
    hide CollisionFree;
    hide NodeInv;
    hide ActiveChain;
    var n := RunTo(K, steps, k);
    var c := ActiveChain(n);
    EveryRunKeepsInv(K, W, steps, k);
    HeightIs(K, W, n, c);
    IndexPoints(K, W, n, c, h);
    ActiveIsGood(K, W, n, c);
    if h > 1 { IndexPoints(K, W, n, c, h - 1); }
  }

  lemma IndexPoints(K: Oracle, W: World, n: NodeState, c: seq<Block>, h: nat)
    requires NodeInv(K, W, n, c) && 1 <= h <= |c|
    ensures |n.heights| == |c| + 1 && n.heights[|c|] == n.bestHash && n.heights[h] == c[h - 1].hash
    ensures c[h - 1].hash in n.headers && n.headers[c[h - 1].hash] == HeaderOf(c[h - 1])
  {
    hide ChainAt;
    hide StoreGood;
    hide GoodChain;
    hide Indexed;
    hide Listed;
    hide Replay;
    ActiveHeaders(K, W, n, c, h - 1);
  }

  lemma ActiveIsGood(K: Oracle, W: World, n: NodeState, c: seq<Block>)
    requires NodeInv(K, W, n, c)
    ensures LinksOk(c) && TimesOk(c)
  {
    hide ChainAt;
    hide StoreGood;
    hide GoodChain;
    hide Indexed;
    hide Listed;
    hide Replay;
    GoodChainHeaders(K, W, c);
  }

  /** Over every run, along the active chain no txid is used twice and no outpoint is spent twice. */
  lemma RunNeverReuses(K: Oracle, W: World, steps: seq<Step>, k: nat)
    requires CollisionFree(K.sha, W.corpus) && k <= |steps| && RunOk(K, W, steps, k)
    ensures NeverReused(History(K.sha, ActiveChain(RunTo(K, steps, k))))
  {
    hide ChainAt;
    hide StoreGood;
    hide GoodChain;
    hide Indexed;
    hide Listed;
    hide HeightsOf;
    hide RunTo;
    hide StepOk;
    hide Restarted;
    hide StepAgrees;
    hide Replay;
    hide CollisionFree;
    hide ActiveChain;
    hide History;
    hide NeverReused;
    EveryRunKeepsInv(K, W, steps, k);
    HistoryNeverReuses(K, W, ActiveChain(RunTo(K, steps, k)));
  }
}
