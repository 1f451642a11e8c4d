/**
 * Exactly which blocks `rpc_submitblock` accepts.
 *
 * `Valid` is the rule: a block on a chain and a ledger, said without indexes, staging or the order of the checks.
 */
module Acceptance {
  import opened Types
  import opened Records
  import opened Emission
  import opened Flags
  import opened Ledger
  import opened Freshness
  import opened Shape
  import opened Admission
  import opened Chain
  import opened Node
  import opened NodeInvariant
  import opened NodeReplay
  import opened NodeRuns
  import Merkle

  // ---- The rule ----

  /** What the world outside the chain has to agree to: form, challenge, clock, policy and size. */
  ghost predicate EnvOk(K: Oracle, env: Env, b: Block) {
    && env.form(b) && env.challenge(b) && b.timestamp <= env.now + 120 && env.fits(Stored(K.sha, b))
    && (forall i :: 0 <= i < |b.txs| ==> env.policy(b.txs[i]))
  }

  /** The coinbase may be paid and each transaction in turn added to the ledger. */
  ghost predicate TxsOk(K: Oracle, s: State, b: Block) {
    var paid := ApplyTx(s.utxo, CoinbaseOf(K.sha, b), b.height);
    paid.Some? && AllAdmissible(State(paid.value, s.flags), b.txs, |b.txs|, b.height)
  }

  ghost predicate CoinbaseOk(K: Oracle, b: Block) {
    && CoinbaseRefusal(b.height, FeeWord(b.txs), b.payout, K.foundation, b.coinbase, K.isPs1).None?
    && (b.cbTxid.Some? ==> b.cbTxid.value == CoinbaseOf(K.sha, b).txid)
  }

  /** Block `b` is valid on top of chain `c` with ledger `s`. */
  ghost predicate Valid(K: Oracle, env: Env, c: seq<Block>, s: State, b: Block) {
    && Extends(c, b) && Sealed(K, b) && EnvOk(K, env, b) && CoinbaseOk(K, b) && TxsOk(K, s, b)
    && (forall i :: 0 <= i < |b.txs| ==> Chain.Parsed(K.sha, b.txs[i], b.height))
  }

  // ---- The book of a chain ----

  lemma {:induction false} TxsKeepBook(s: State, txs: seq<Tx>, n: nat, h: nat)
    requires n <= |txs| && ReplayTxs(s, txs, n, h).Some? && BookInv(s.flags)
    ensures BookInv(ReplayTxs(s, txs, n, h).value.flags)
  {
    hide BookInv;
    hide ApplyFlagTx;
    hide ApplyTx;
    if n > 0 {
      TxsKeepBook(s, txs, n - 1, h);
      FlagTxKeepsBook(ReplayTxs(s, txs, n - 1, h).value.flags, txs[n - 1], h);
    }
  }

  /** The book of every chain that replays is in order. */
  lemma {:induction false} BookOfChain(c: seq<Block>)
    requires Replay(c).Some?
    ensures BookInv(Replay(c).value.flags)
  {
    hide ReplayTxs;
    hide ApplyUtxos;
    hide ReadCredits;
    if c == [] {
      assert EMPTY.flags == [];
    } else {
      BookOfChain(c[..|c| - 1]);
      hide BookInv;
      var s, b := Replay(c[..|c| - 1]).value, c[|c| - 1];
      var credits := if b.cbTxid.Some? then ReadCredits(b.cbTxid.value, b.coinbase, b.height) else [];
      TxsKeepBook(State(ApplyUtxos(s.utxo, [], credits).value, s.flags), b.txs, |b.txs|, b.height);
    }
  }

  lemma TrackedLedger(K: Oracle, W: World, n: NodeState, c: seq<Block>)
    requires CollisionFree(K.sha, W.corpus) && Tracks(K, W, n, c)
    ensures BookInv(n.ledger.flags) && Sound(K, W.corpus, History(K.sha, c), n.ledger, |c|)
    ensures Replay(c).Some? && Alike(W, Replay(c).value, n.ledger) && GoodChain(K, W, c)
  {
    hide Sound;
    hide BookInv;
    hide GoodChain;
    hide CollisionFree;
    hide Replay;
    hide Indexed;
    hide Listed;
    hide Placed;
    hide SameKeys;
    GoodChainSound(K, W, c);
    BookOfChain(c);
    AlikeShape(W, Replay(c).value, n.ledger);
    SoundShape(K, W.corpus, History(K.sha, c), Replay(c).value, n.ledger, |c|);
  }

  // ---- Body, seal, and the whole block ----

  lemma {:induction false} AdmissibleSpend(s: State, txs: seq<Tx>, n: nat, h: nat)
    requires n <= |txs| && AllAdmissible(s, txs, n, h)
    ensures forall i :: 0 <= i < n ==> txs[i].inputs != []
  {
    hide BalanceOk;
    hide FlagOk;
    hide ReplayTxs;
    if n > 0 { AdmissibleSpend(s, txs, n - 1, h); }
  }

  /** Staging a block of parsed transactions succeeds if and only if they may be added in turn. */
  lemma BlockStageIff(K: Oracle, W: World, n: NodeState, c: seq<Block>, b: Block)
    requires CollisionFree(K.sha, W.corpus) && Tracks(K, W, n, c) && b.height == |c| + 1 && b.height < U32
    requires InCorpus(K, W.corpus, b) && forall i :: 0 <= i < |b.txs| ==> Chain.Parsed(K.sha, b.txs[i], b.height)
    ensures StageBlock(K.sha, n.ledger, b).Some? <==> TxsOk(K, n.ledger, b)
  {
    hide CollisionFree;
    hide Tracks;
    hide InCorpus;
    hide Chain.Parsed;
    hide BookInv;
    hide Sound;
    hide Inv;
    hide Setting;
    hide Stage;
    hide ApplyTx;
    hide AllAdmissible;
    hide CoinbaseOf;
    hide GoodChain;
    hide Alike;
    var u, flags, cb, past := n.ledger.utxo, n.ledger.flags, CoinbaseOf(K.sha, b), History(K.sha, c);
    TrackedLedger(K, W, n, c);
    if StageBlock(K.sha, n.ledger, b).Some? {
      StagedHaveInputs(u, flags, cb, b.txs, |b.txs|, b.height);
    }
    if TxsOk(K, n.ledger, b) {
      AdmissibleSpend(State(ApplyTx(u, cb, b.height).value, flags), b.txs, |b.txs|, b.height);
    }
    if StageBlock(K.sha, n.ledger, b).Some? || TxsOk(K, n.ledger, b) {
      ParsedSetting(K, W.corpus, past, n.ledger, b);
      StageIff(K.sha, W.corpus, past, u, flags, cb, b.txs, |b.txs|, b.height);
    }
  }

  /** A coinbase that passes pays somebody. */
  lemma SomethingPaid(K: Oracle, h: nat, fee: nat, payout: Text, outs: seq<CbOut>)
    requires CoinbaseRefusal(h, fee, payout, K.foundation, outs, K.isPs1).None?
    ensures NonZero(outs) != []
  {
    hide NonZero;
    hide RowsRefusal;
    hide RolesRefusal;
    hide FeeShares;
    NonZeroSums(outs, Validator);
    assert RoleSum([], Validator) == 0;
  }

  lemma BodyIff(K: Oracle, W: World, env: Env, n: NodeState, c: seq<Block>, b: Block)
    requires CollisionFree(K.sha, W.corpus) && Tracks(K, W, n, c) && b.height == |c| + 1 && b.height < U32
    requires InCorpus(K, W.corpus, b)
    ensures BodyRefusal(K, env, n.ledger, b).None? <==>
              && (forall i :: 0 <= i < |b.txs| ==> Chain.Parsed(K.sha, b.txs[i], b.height))
              && CoinbaseOk(K, b) && TxsOk(K, n.ledger, b) && (forall i :: 0 <= i < |b.txs| ==> env.policy(b.txs[i]))
  {
    hide CollisionFree;
    hide Tracks;
    hide InCorpus;
    hide Chain.Parsed;
    hide StageBlock;
    hide TxsOk;
    hide CoinbaseOf;
    hide CoinbaseRefusal;
    hide NonZero;
    hide FeeWord;
    if forall i :: 0 <= i < |b.txs| ==> Chain.Parsed(K.sha, b.txs[i], b.height) { BlockStageIff(K, W, n, c, b); }
    if CoinbaseOk(K, b) { SomethingPaid(K, b.height, FeeWord(b.txs), b.payout, b.coinbase); }
  }

  lemma SealIff(K: Oracle, env: Env, b: Block)
    ensures SealRefusal(K, env, b).None? <==> Sealed(K, b) && env.fits(Stored(K.sha, b))
  {
    hide CoinbaseOf;
    hide Stored;
  }

  /** On a node that tracks chain `c` every check passes if and only if the block is valid on `c` and the ledger. */
  lemma PassesIff(K: Oracle, W: World, env: Env, n: NodeState, c: seq<Block>, b: Block)
    requires CollisionFree(K.sha, W.corpus) && Tracks(K, W, n, c) && MayStore(K, W, b)
    ensures SubmitRefusal(K, env, n, b).None? <==> Valid(K, env, c, n.ledger, b)
  {
    hide CollisionFree;
    hide Tracks;
    hide InCorpus;
    hide Chain.Parsed;
    hide HeaderRefusal;
    hide BodyRefusal;
    hide SealRefusal;
    hide Sealed;
    hide TxsOk;
    hide CoinbaseOk;
    hide Stored;
    hide ChainDifficulty;
    HeaderIff(K, W, env, n, c, b);
    if b.height == |c| + 1 { BodyIff(K, W, env, n, c, b); }
    SealIff(K, env, b);
  }

  /**
   * `rpc_submitblock`, exactly: a block is accepted if and only if it is valid on the active chain and the ledger and
   * its hash is not indexed yet; it is reported as known if and only if it is valid and indexed.
   */
  lemma AcceptedIff(K: Oracle, W: World, env: Env, n: NodeState, c: seq<Block>, b: Block)
    requires CollisionFree(K.sha, W.corpus) && NodeInv(K, W, n, c) && MayStore(K, W, b)
    ensures SubmitOutcome(K, env, n, b) == Accepted <==> Valid(K, env, c, n.ledger, b) && b.hash !in n.indexOf
    ensures SubmitOutcome(K, env, n, b) == AlreadyKnown <==> Valid(K, env, c, n.ledger, b) && b.hash in n.indexOf
  {
    hide NodeInv;
    hide Tracks;
    hide CollisionFree;
    hide MayStore;
    hide SubmitRefusal;
    hide Valid;
    InvTracks(K, W, n, c);
    PassesIff(K, W, env, n, c, b);
  }

  // ---- Why a block is rejected ----

  /** The rule that a rejection with this reason says is broken. */
  ghost predicate Broken(K: Oracle, env: Env, c: seq<Block>, s: State, b: Block, why: Why) {
    match why
    case BadForm => !env.form(b)
    case BadPrev => b.prev != TipHash(c)
    case BadHeight => b.height != |c| + 1
    case BadChallenge => !env.challenge(b)
    case BadDifficulty => b.difficulty != ChainDifficulty(c)
    case BadTimestamp => b.timestamp <= TipTime(c) || b.timestamp > env.now + 120
    case BadTx => exists i :: 0 <= i < |b.txs| && !Chain.Parsed(K.sha, b.txs[i], b.height)
    case BadCoinbase(r) =>
      || Breaks(b.height, FeeWord(b.txs), b.payout, K.foundation, b.coinbase, K.isPs1, r)
      || (r == CoinbaseMissing && b.cbTxid.Some? && b.cbTxid.value != CoinbaseOf(K.sha, b).txid)
    case BadSpend => !TxsOk(K, s, b) || exists i :: 0 <= i < |b.txs| && !env.policy(b.txs[i])
    case BadMerkle => b.merkle != Merkle.Root(K.pair, TxIds(K, b))
    case BadDigest => b.hash != K.digest(PreimageOf(b))
    case WeakDigest => !K.pow(b.hash, b.difficulty)
    case TooLarge => !env.fits(Stored(K.sha, b))
  }

  lemma HeaderWhy(K: Oracle, W: World, env: Env, n: NodeState, c: seq<Block>, b: Block)
    requires Tracks(K, W, n, c) && HeaderRefusal(env, n, b).Some?
    ensures Broken(K, env, c, n.ledger, b, HeaderRefusal(env, n, b).value)
  {
    hide Follows;
    hide GoodChain;
    hide ChainDifficulty;
    hide NextDifficulty;
    hide Indexed;
    hide Listed;
    hide BestHeader;
    hide TxsOk;
    hide Stored;
    DifficultyIsChains(K, W, n, c);
    if c != [] { HeadersRead(n, c, |c| - 1); }
  }

  lemma BodyWhy(K: Oracle, W: World, env: Env, n: NodeState, c: seq<Block>, b: Block)
    requires CollisionFree(K.sha, W.corpus) && Tracks(K, W, n, c) && b.height == |c| + 1 && b.height < U32
    requires InCorpus(K, W.corpus, b) && BodyRefusal(K, env, n.ledger, b).Some?
    ensures Broken(K, env, c, n.ledger, b, BodyRefusal(K, env, n.ledger, b).value)
  {
    hide CollisionFree;
    hide Tracks;
    hide InCorpus;
    hide Chain.Parsed;
    hide StageBlock;
    hide TxsOk;
    hide CoinbaseOf;
    hide CoinbaseRefusal;
    hide NonZero;
    hide FeeWord;
    hide Breaks;
    hide Stored;
    if forall i :: 0 <= i < |b.txs| ==> Chain.Parsed(K.sha, b.txs[i], b.height) { BlockStageIff(K, W, n, c, b); }
    if CoinbaseRefusal(b.height, FeeWord(b.txs), b.payout, K.foundation, b.coinbase, K.isPs1).None? {
      SomethingPaid(K, b.height, FeeWord(b.txs), b.payout, b.coinbase);
    } else {
      RefusalBreaks(b.height, FeeWord(b.txs), b.payout, K.foundation, b.coinbase, K.isPs1);
    }
  }

  /** A rejected block does break the rule it is rejected for. */
  lemma RejectedWhy(K: Oracle, W: World, env: Env, n: NodeState, c: seq<Block>, b: Block)
    requires CollisionFree(K.sha, W.corpus) && NodeInv(K, W, n, c) && MayStore(K, W, b)
    requires SubmitOutcome(K, env, n, b).Rejected?
    ensures Broken(K, env, c, n.ledger, b, SubmitOutcome(K, env, n, b).why)
  {
    hide NodeInv;
    hide Tracks;
    hide CollisionFree;
    hide InCorpus;
    hide HeaderRefusal;
    hide BodyRefusal;
    hide TxsOk;
    hide Stored;
    hide ChainDifficulty;
    hide Breaks;
    hide CoinbaseOf;
    InvTracks(K, W, n, c);
    if HeaderRefusal(env, n, b).Some? {
      HeaderWhy(K, W, env, n, c, b);
    } else {
      HeaderIff(K, W, env, n, c, b);
      if BodyRefusal(K, env, n.ledger, b).Some? { BodyWhy(K, W, env, n, c, b); }
    }
  }

  // ---- Work ----

  /** In every reachable state every stored block, active or not, carries its digest, its root and its work. */
  lemma RunSealed(K: Oracle, W: World, steps: seq<Step>, k: nat, i: nat)
    requires CollisionFree(K.sha, W.corpus) && k <= |steps| && RunOk(K, W, steps, k)
    requires i < |RunTo(K, steps, k).store|
    ensures var b := RunTo(K, steps, k).store[i];
            && K.pow(b.hash, b.difficulty) && b.hash == K.digest(PreimageOf(b))
            && b.merkle == Merkle.Root(K.pair, TxIds(K, b))
  {
    hide NodeInv;
    hide RunTo;
    hide StepOk;
    hide StepAgrees;
    hide Restarted;
    hide ActiveChain;
    hide CollisionFree;
    hide ChainAt;
    hide GoodChain;
    hide TxIds;
    NodeRuns.EveryRunKeepsInv(K, W, steps, k);
    StoreIsGood(K, W, RunTo(K, steps, k), ActiveChain(RunTo(K, steps, k)));
  }
}
