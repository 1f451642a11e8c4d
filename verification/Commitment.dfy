/**
 * What the merkle root of an accepted block commits to.
 *
 * Every transaction `parse_user_tx` lets through fits its wire fields. A coinbase need not: nothing
 * limits the length of its addresses for stakers and loans, nor for validators below height 32.
 */
module Commitment {
  import opened Types
  import opened Records
  import opened TxCodec
  import opened Emission
  import opened Ledger
  import opened Freshness
  import opened Chain
  import Merkle

  // ---- Which accepted records fit ----

  /** Every parsed transaction fits its wire fields, so its encoding fixes its committed fields. */
  lemma ParsedFits(sha: Sha, tx: Tx, h: nat)
    requires Chain.Parsed(sha, tx, h)
    ensures Fits(tx)
  {
    hide Canonical;
  }

  ghost predicate AddressesFit(outs: seq<CbOut>) {
    forall i :: 0 <= i < |outs| && outs[i].units > 0 ==> |outs[i].address| < U16
  }

  lemma {:induction false} NonZeroAll(outs: seq<CbOut>)
    ensures |NonZero(outs)| <= |outs|
    ensures forall i :: 0 <= i < |outs| && outs[i].units > 0 ==> outs[i] in NonZero(outs)
    ensures forall i :: 0 <= i < |NonZero(outs)| ==> NonZero(outs)[i] in outs && NonZero(outs)[i].units > 0
  {
    if outs != [] {
      var n := |outs| - 1;
      NonZeroAll(outs[..n]);
      assert NonZero(outs) == NonZero(outs[..n]) + (if outs[n].units == 0 then [] else [outs[n]]);
      forall i | 0 <= i < |outs| && outs[i].units > 0 ensures outs[i] in NonZero(outs) {
        if i < n { assert outs[..n][i] == outs[i]; }
      }
    }
  }

  /** A coinbase of 64-bit amounts fits exactly when the addresses it pays are below 65536 bytes. */
  lemma CoinbaseFitsIff(sha: Sha, h: nat, outs: seq<CbOut>)
    requires h < U32 && |outs| < U32 && forall i :: 0 <= i < |outs| ==> outs[i].units < U64
    ensures Fits(CoinbaseFrom(sha, h, outs)) <==> AddressesFit(outs)
  {
    hide Canonical;
    hide NonZero;
    NonZeroAll(outs);
    var paid := NonZero(outs);
    assert AddressesFit(outs) <==> forall i :: 0 <= i < |paid| ==> |paid[i].address| < U16;
  }

  // ---- What the root of an accepted block fixes ----

  /** Along a good chain the ids of one block are distinct. */
  lemma BlockIdsDistinct(K: Oracle, W: World, c: seq<Block>)
    requires CollisionFree(K.sha, W.corpus) && GoodChain(K, W, c) && c != []
    ensures Distinct(TxIds(K, c[|c| - 1]))
  {
    hide GoodChain;
    hide CollisionFree;
    hide NeverReused;
    hide CoinbaseOf;
    hide InPoints;
    HistoryNeverReuses(K, W, c);
    var b, past := c[|c| - 1], History(K.sha, c[..|c| - 1]);
    var all, ids := History(K.sha, c), TxIds(K, b);
    assert all == past + [CoinbaseOf(K.sha, b)] + b.txs;
    forall i, j | 0 <= i < j < |ids| ensures ids[i] != ids[j] {
      NeverReusedPairwise(all, |past| + i, |past| + j);
    }
  }

  /** The merkle nodes of two blocks do not collide, and no id is the value of a node. */
  ghost predicate TreesApart(K: Oracle, a: seq<Hash>, b: seq<Hash>) {
    && Merkle.NoCollision(K.pair, Merkle.Hashed(K.pair, a) + Merkle.Hashed(K.pair, b))
    && Merkle.LeavesApart(K.pair, a, b) && Merkle.LeavesApart(K.pair, b, a)
  }

  lemma LastLink(K: Oracle, W: World, c: seq<Block>)
    requires GoodChain(K, W, c) && c != []
    ensures var b := c[|c| - 1];
            && InCorpus(K, W.corpus, b) && InStoredForm(K.sha, b) && Sealed(K, b)
            && b.height == |c| && |b.coinbase| < U32
            && (forall i :: 0 <= i < |b.txs| ==> Chain.Parsed(K.sha, b.txs[i], b.height))
  {
    hide Link;
    hide Chain.Parsed;
    hide CoinbaseRefusal;
    hide StageBlock;
    hide ChainDifficulty;
    hide InCorpus;
    hide InStoredForm;
    hide Sealed;
    hide Alike;
    hide Replay;
    var n := |c| - 1;
    var _ := LinkLedger(K, W, c[..n], c[n]);
  }

  /** One id, one encoding, for the coinbase and for each transaction. */
  lemma SameIdsSameBytes(K: Oracle, W: World, a: Block, b: Block)
    requires CollisionFree(K.sha, W.corpus) && InCorpus(K, W.corpus, a) && InCorpus(K, W.corpus, b)
    requires forall i :: 0 <= i < |a.txs| ==> Chain.Parsed(K.sha, a.txs[i], a.height)
    requires forall i :: 0 <= i < |b.txs| ==> Chain.Parsed(K.sha, b.txs[i], b.height)
    requires TxIds(K, a) == TxIds(K, b)
    ensures Canonical(CoinbaseOf(K.sha, a)) == Canonical(CoinbaseOf(K.sha, b))
    ensures |a.txs| == |b.txs| && forall i :: 0 <= i < |a.txs| ==> Committed(a.txs[i]) == Committed(b.txs[i])
  {
    hide Canonical;
    hide Committed;
    hide Fits;
    var ia, ib := TxIds(K, a), TxIds(K, b);
    assert ia[0] == ib[0];
    CoinbaseIdIs(K.sha, a);
    CoinbaseIdIs(K.sha, b);
    forall i | 0 <= i < |a.txs| ensures Committed(a.txs[i]) == Committed(b.txs[i]) {
      assert ia[i + 1] == ib[i + 1];
      ParsedFits(K.sha, a.txs[i], a.height);
      ParsedFits(K.sha, b.txs[i], b.height);
      CanonicalCommits(a.txs[i], b.txs[i]);
    }
  }

  lemma CoinbaseIdIs(sha: Sha, b: Block)
    ensures CoinbaseOf(sha, b).txid == sha(Canonical(CoinbaseOf(sha, b)))
  {
    hide Canonical;
    CanonicalIgnoresId(CoinbaseOf(sha, b), ZERO);
  }

  /**
   * Block commitment, from the root alone: two accepted blocks under one root have as many transactions
   * and agree, in order, on every committed field of each; their coinbases have one encoding, and one
   * list of outputs as well if both fit their wire fields.
   */
  lemma RootCommits(K: Oracle, W: World, c: seq<Block>, d: seq<Block>)
    requires CollisionFree(K.sha, W.corpus)
    requires GoodChain(K, W, c) && c != [] && GoodChain(K, W, d) && d != []
    requires var ia, ib := TxIds(K, c[|c| - 1]), TxIds(K, d[|d| - 1]);
             TreesApart(K, ia, ib) && Merkle.Root(K.pair, ia) == Merkle.Root(K.pair, ib)
    ensures var a, b := c[|c| - 1], d[|d| - 1];
            var ca, cb := CoinbaseOf(K.sha, a), CoinbaseOf(K.sha, b);
            && TxIds(K, a) == TxIds(K, b)
            && |a.txs| == |b.txs| && (forall i :: 0 <= i < |a.txs| ==> Committed(a.txs[i]) == Committed(b.txs[i]))
            && Canonical(ca) == Canonical(cb)
            && (Fits(ca) && Fits(cb) ==> ca.outputs == cb.outputs && ca.height == cb.height)
  {
    hide GoodChain;
    hide CollisionFree;
    hide Canonical;
    hide CoinbaseOf;
    hide Chain.Parsed;
    hide InCorpus;
    hide InStoredForm;
    hide Fits;
    hide Merkle.Root;
    hide Merkle.Hashed;
    hide Merkle.LeavesApart;
    var a, b := c[|c| - 1], d[|d| - 1];
    BlockIdsDistinct(K, W, c);
    BlockIdsDistinct(K, W, d);
    Merkle.RootFixesDistinctIds(K.pair, TxIds(K, a), TxIds(K, b));
    LastLink(K, W, c);
    LastLink(K, W, d);
    SameIdsSameBytes(K, W, a, b);
    CoinbaseCommits(K.sha, a, b);
  }

  lemma CoinbaseCommits(sha: Sha, a: Block, b: Block)
    requires Canonical(CoinbaseOf(sha, a)) == Canonical(CoinbaseOf(sha, b))
    ensures var ca, cb := CoinbaseOf(sha, a), CoinbaseOf(sha, b);
            Fits(ca) && Fits(cb) ==> ca.outputs == cb.outputs && ca.height == cb.height
  {
    hide Canonical;
    hide Fits;
    var ca, cb := CoinbaseOf(sha, a), CoinbaseOf(sha, b);
    if Fits(ca) && Fits(cb) { CanonicalCommits(ca, cb); }
  }

  /**
   * With the count, for any two lists of records that fit: when neither hash collides on the values
   * actually hashed, lists of one length under one root agree, in order, on every committed field.
   */
  lemma BlockCommitment(sha: Sha, H: Merkle.PairHash, a: seq<Tx>, b: seq<Tx>)
    requires |a| == |b| && Merkle.Root(H, Merkle.Ids(a)) == Merkle.Root(H, Merkle.Ids(b))
    requires Merkle.NoCollision(H, Merkle.Hashed(H, Merkle.Ids(a)) + Merkle.Hashed(H, Merkle.Ids(b)))
    requires forall t :: t in a || t in b ==> Fits(t) && t.txid == sha(Canonical(t))
    requires forall s, t :: s in a && t in b && sha(Canonical(s)) == sha(Canonical(t)) ==> Canonical(s) == Canonical(t)
    ensures forall i :: 0 <= i < |a| ==> Committed(a[i]) == Committed(b[i])
  {
    Merkle.RootAndCountFixIds(H, Merkle.Ids(a), Merkle.Ids(b));
    forall i | 0 <= i < |a| ensures Committed(a[i]) == Committed(b[i]) {
      assert Merkle.Ids(a)[i] == Merkle.Ids(b)[i] && a[i] in a && b[i] in b;
      CanonicalCommits(a[i], b[i]);
    }
  }
}
