/**
 * Exactly which lists `rpc_adopt_peer_chain` adopts: those that end above the tip, start at a stored block and are
 * valid block by block on the chain of that block. Whatever copies are stored does not matter.
 */
module Adoption {
  import opened Types
  import opened Ledger
  import opened Freshness
  import opened Chain
  import opened Node
  import opened NodeInvariant
  import opened NodeReplay
  import opened NodeAdopt
  import opened Acceptance

  // ---- One accepted block ----

  /** An accepted block is the new top of the tracked chain, and the ledger is what replaying it gives. */
  lemma AcceptedTracks(K: Oracle, W: World, env: Env, n: NodeState, c: seq<Block>, b: Block)
    requires CollisionFree(K.sha, W.corpus) && Tracks(K, W, n, c) && MayStore(K, W, b)
    requires SubmitOutcome(K, env, n, b) == Accepted
    ensures var m, y := Submit(K, env, n, b), Stored(K.sha, b);
            && Tracks(K, W, m, c + [y]) && ReplayStored(n.ledger, y) == Some(m.ledger)
            && m.indexOf.Keys == n.indexOf.Keys + {b.hash}
  {
    hide CollisionFree;
    hide Tracks;
    hide SubmitRefusal;
    hide InCorpus;
    hide Link;
    hide BodyOk;
    hide StageBlock;
    hide SettleBlock;
    hide Connect;
    hide Stored;
    hide StoreBlock;
    hide ReplayStored;
    hide MayStore;
    var y := Stored(K.sha, b);
    StoredHash(K.sha, b);
    PassedHeight(K, W, env, n, c, b);
    TrackedLink(K, W, env, n, c, b);
    ConnectIsStored(K, n, b, StageBlock(K.sha, n.ledger, b).value);
    AcceptedIndexes(K, env, n, b);
    LinkTracks(K, W, n, c, y);
  }

  lemma PassedHeight(K: Oracle, W: World, env: Env, n: NodeState, c: seq<Block>, b: Block)
    requires Tracks(K, W, n, c) && MayStore(K, W, b) && SubmitRefusal(K, env, n, b).None?
    ensures |c| + 1 < U32 && b.hash != ZERO && |b.coinbase| < U32 && InCorpus(K, W.corpus, b)
  {
    hide Tracks;
    hide HeaderRefusal;
    hide BodyRefusal;
    hide SealRefusal;
    hide InCorpus;
    hide ChainDifficulty;
    HeaderIff(K, W, env, n, c, b);
  }

  lemma LinkTracks(K: Oracle, W: World, n: NodeState, c: seq<Block>, y: Block)
    requires CollisionFree(K.sha, W.corpus) && Tracks(K, W, n, c) && Link(K, W, c, y) && BodyOk(K, n.ledger, y)
    requires y.hash !in n.indexOf && StageBlock(K.sha, n.ledger, y).Some?
    ensures var m := AfterConnect(K, n, y);
            Tracks(K, W, m, c + [y]) && ReplayStored(n.ledger, y) == Some(m.ledger)
  {
    hide CollisionFree;
    hide GoodChain;
    hide Link;
    hide BodyOk;
    hide StageBlock;
    hide SettleBlock;
    hide StoreBlock;
    hide ReplayStored;
    hide Replay;
    hide Alike;
    hide Indexed;
    hide Listed;
    hide Placed;
    var m := AfterConnect(K, n, y);
    LinkReplays(K, W, c, n.ledger, y);
    GoodSnoc(K, W, c, y);
    LinkHeight(K, W, c, y);
    TipGrows(n, c, y, y, m.ledger);
    IndexGrows(n, c, y, y, m.ledger);
  }

  lemma LinkReplays(K: Oracle, W: World, c: seq<Block>, t: State, y: Block)
    requires CollisionFree(K.sha, W.corpus) && GoodChain(K, W, c) && Link(K, W, c, y) && BodyOk(K, t, y)
    requires Replay(c).Some? && Alike(W, Replay(c).value, t)
    ensures StageBlock(K.sha, t, y).Some? && Replay(c + [y]).Some?
    ensures var s := SettleBlock(K.sha, t, y, StageBlock(K.sha, t, y).value);
            Alike(W, Replay(c + [y]).value, s) && ReplayStored(t, y) == Some(s)
  {
    hide CollisionFree;
    hide GoodChain;
    hide BodyOk;
    hide StageBlock;
    hide SettleBlock;
    hide ReplayStored;
    hide Alike;
    hide Sound;
    hide InStoredForm;
    hide InCorpus;
    hide Sealed;
    hide ChainDifficulty;
    assert (c + [y])[..|c|] == c;
    GoodChainSound(K, W, c);
    ExtendAlike(K, W, History(K.sha, c), Replay(c).value, t, y);
  }

  // ---- A list of blocks ----

  /** The ledger after the first `k` blocks, each as it is stored. */
  ghost function LedgerOn(K: Oracle, s: State, blocks: seq<Block>, k: nat): Option<State>
    requires k <= |blocks|
  {
    if k == 0 then Some(s) else
    match LedgerOn(K, s, blocks, k - 1)
    case None => None
    case Some(t) => ReplayStored(t, Stored(K.sha, blocks[k - 1]))
  }

  /** Block `k` is valid on `d` and the blocks before it. */
  ghost predicate ValidAt(K: Oracle, envs: seq<Env>, d: seq<Block>, s: State, blocks: seq<Block>, k: nat)
    requires |envs| == |blocks| && k < |blocks|
  {
    var t := LedgerOn(K, s, blocks, k);
    t.Some? && Valid(K, envs[k], d + StoredForms(K, blocks, k), t.value, blocks[k])
  }

  /** The first `k` blocks build on `d`, one valid on top of the other, and none of them is known. */
  ghost predicate Builds(K: Oracle, envs: seq<Env>, d: seq<Block>, s: State, known: set<Hash>, blocks: seq<Block>,
                         k: nat)
    requires |envs| == |blocks| && k <= |blocks|
  {
    forall j :: 0 <= j < k ==> ValidAt(K, envs, d, s, blocks, j) && blocks[j].hash !in known
  }

  lemma BuildsMore(K: Oracle, envs: seq<Env>, d: seq<Block>, s: State, known: set<Hash>, blocks: seq<Block>, k: nat)
    requires |envs| == |blocks| && k < |blocks|
    ensures Builds(K, envs, d, s, known, blocks, k + 1) <==>
              && Builds(K, envs, d, s, known, blocks, k)
              && ValidAt(K, envs, d, s, blocks, k) && blocks[k].hash !in known
  {
    hide ValidAt;
  }

  /** Node `f` is `m` after the first `k` blocks were accepted on chain `d`. */
  ghost predicate FedTo(K: Oracle, W: World, envs: seq<Env>, m: NodeState, d: seq<Block>, blocks: seq<Block>, k: nat)
    requires |envs| == |blocks| && k <= |blocks|
  {
    var f := Feed(K, envs, m, blocks, k);
    && f.ok && Tracks(K, W, f.node, d + StoredForms(K, blocks, k))
    && LedgerOn(K, m.ledger, blocks, k) == Some(f.node.ledger)
    && f.node.indexOf.Keys == m.indexOf.Keys + HashSet(blocks, k)
  }

  lemma FedNothing(K: Oracle, W: World, envs: seq<Env>, m: NodeState, d: seq<Block>, blocks: seq<Block>)
    requires |envs| == |blocks| && Tracks(K, W, m, d)
    ensures FedTo(K, W, envs, m, d, blocks, 0)
  {
    hide Tracks;
    assert d + StoredForms(K, blocks, 0) == d;
  }

  /** A block after a list that was fed passes if and only if it is valid there, and if it is new it is accepted. */
  lemma FedPasses(K: Oracle, W: World, envs: seq<Env>, m: NodeState, d: seq<Block>, blocks: seq<Block>, k: nat)
    requires CollisionFree(K.sha, W.corpus) && AllMayStore(K, W, blocks) && PeerList(blocks)
    requires |envs| == |blocks| && k < |blocks| && FedTo(K, W, envs, m, d, blocks, k)
    ensures var f := Feed(K, envs, m, blocks, k).node;
            && (SubmitRefusal(K, envs[k], f, blocks[k]).None? <==> ValidAt(K, envs, d, m.ledger, blocks, k))
            && (blocks[k].hash in f.indexOf <==> blocks[k].hash in m.indexOf)
  {
    hide CollisionFree;
    hide MayStore;
    hide Tracks;
    hide SubmitRefusal;
    hide Valid;
    hide LedgerOn;
    hide StoredForms;
    hide Feed;
    hide HashSet;
    hide PeerList;
    PassesIff(K, W, envs[k], Feed(K, envs, m, blocks, k).node, d + StoredForms(K, blocks, k), blocks[k]);
    NotInHashSet(blocks, k, k);
  }

  lemma FedOne(K: Oracle, W: World, envs: seq<Env>, m: NodeState, d: seq<Block>, blocks: seq<Block>, k: nat)
    requires CollisionFree(K.sha, W.corpus) && AllMayStore(K, W, blocks)
    requires |envs| == |blocks| && k < |blocks| && FedTo(K, W, envs, m, d, blocks, k)
    requires SubmitOutcome(K, envs[k], Feed(K, envs, m, blocks, k).node, blocks[k]) == Accepted
    ensures FedTo(K, W, envs, m, d, blocks, k + 1)
  {
    hide CollisionFree;
    hide MayStore;
    hide Tracks;
    hide SubmitOutcome;
    hide Submit;
    hide Stored;
    hide ReplayStored;
    var e, y := d + StoredForms(K, blocks, k), Stored(K.sha, blocks[k]);
    AcceptedTracks(K, W, envs[k], Feed(K, envs, m, blocks, k).node, e, blocks[k]);
    assert e + [y] == d + StoredForms(K, blocks, k + 1);
  }

  /** Blocks that build on the chain and are new are accepted one after the other. */
  lemma {:induction false} BuildsFeeds(K: Oracle, W: World, envs: seq<Env>, m: NodeState, d: seq<Block>,
                                       blocks: seq<Block>, k: nat)
    requires CollisionFree(K.sha, W.corpus) && AllMayStore(K, W, blocks) && PeerList(blocks) && Tracks(K, W, m, d)
    requires |envs| == |blocks| && k <= |blocks| && Builds(K, envs, d, m.ledger, m.indexOf.Keys, blocks, k)
    ensures FedTo(K, W, envs, m, d, blocks, k)
  {
    hide CollisionFree;
    hide AllMayStore;
    hide Tracks;
    hide SubmitRefusal;
    hide ValidAt;
    hide FedTo;
    hide Feed;
    hide PeerList;
    if k == 0 {
      FedNothing(K, W, envs, m, d, blocks);
    } else {
      BuildsMore(K, envs, d, m.ledger, m.indexOf.Keys, blocks, k - 1);
      hide Builds;
      BuildsFeeds(K, W, envs, m, d, blocks, k - 1);
      FedPasses(K, W, envs, m, d, blocks, k - 1);
      FedOne(K, W, envs, m, d, blocks, k - 1);
    }
  }

  /** A block that was known leaves the tip, so in a linked list the next one cannot pass. */
  lemma KnownBlocks(K: Oracle, W: World, envs: seq<Env>, m: NodeState, d: seq<Block>, blocks: seq<Block>, k: nat)
    requires CollisionFree(K.sha, W.corpus) && AllMayStore(K, W, blocks) && PeerList(blocks)
    requires |envs| == |blocks| && 0 < k < |blocks| && FedTo(K, W, envs, m, d, blocks, k - 1)
    requires Feed(K, envs, m, blocks, k + 1).ok
    ensures blocks[k - 1].hash !in m.indexOf
  {
    hide CollisionFree;
    hide AllMayStore;
    hide PeerList;
    hide Tracks;
    hide SubmitRefusal;
    hide LedgerOn;
    hide StoredForms;
    hide HashSet;
    hide Feed;
    hide ValidAt;
    FedPasses(K, W, envs, m, d, blocks, k - 1);
    var f := Feed(K, envs, m, blocks, k - 1).node;
    if blocks[k - 1].hash in m.indexOf {
      NotOwnParent(blocks, k);
      NotOwnParent(blocks, k - 1);
      FedKnown(K, envs, m, blocks, k);
      PassedPrev(K, envs[k - 1], f, blocks[k - 1]);
      PassedPrev(K, envs[k], f, blocks[k]);
    }
  }

  lemma FedKnown(K: Oracle, envs: seq<Env>, m: NodeState, blocks: seq<Block>, k: nat)
    requires |envs| == |blocks| && 0 < k < |blocks| && Feed(K, envs, m, blocks, k + 1).ok
    requires blocks[k - 1].hash in Feed(K, envs, m, blocks, k - 1).node.indexOf
    ensures var f := Feed(K, envs, m, blocks, k - 1).node;
            && SubmitRefusal(K, envs[k - 1], f, blocks[k - 1]).None?
            && SubmitRefusal(K, envs[k], f, blocks[k]).None?
  {
    hide SubmitRefusal;
    hide Connect;
    FeedStep(K, envs, m, blocks, k);
    FeedStep(K, envs, m, blocks, k - 1);
    hide Feed;
  }

  lemma FeedStep(K: Oracle, envs: seq<Env>, m: NodeState, blocks: seq<Block>, k: nat)
    requires |envs| == |blocks| && k < |blocks| && Feed(K, envs, m, blocks, k + 1).ok
    ensures var f := Feed(K, envs, m, blocks, k);
            && f.ok && !SubmitOutcome(K, envs[k], f.node, blocks[k]).Rejected?
            && Feed(K, envs, m, blocks, k + 1).node == Submit(K, envs[k], f.node, blocks[k])
  {
    hide SubmitOutcome;
    hide Submit;
  }

  lemma PassedPrev(K: Oracle, env: Env, n: NodeState, b: Block)
    requires SubmitRefusal(K, env, n, b).None?
    ensures b.prev == if n.heights == [] then ZERO else n.bestHash
  {
    hide NextDifficulty;
    hide BodyRefusal;
    hide SealRefusal;
  }

  /** Feeding a linked list: block `k` is reached and passes if and only if all before it build and it is valid. */
  lemma {:induction false} FeedIff(K: Oracle, W: World, envs: seq<Env>, m: NodeState, d: seq<Block>,
                                   blocks: seq<Block>, k: nat)
    requires CollisionFree(K.sha, W.corpus) && AllMayStore(K, W, blocks) && PeerList(blocks) && Tracks(K, W, m, d)
    requires |envs| == |blocks| && k < |blocks|
    ensures Feed(K, envs, m, blocks, k + 1).ok <==>
              Builds(K, envs, d, m.ledger, m.indexOf.Keys, blocks, k) && ValidAt(K, envs, d, m.ledger, blocks, k)
  {
    hide CollisionFree;
    hide AllMayStore;
    hide PeerList;
    hide Tracks;
    hide SubmitRefusal;
    hide Submit;
    hide ValidAt;
    hide FedTo;
    if k > 0 && Feed(K, envs, m, blocks, k + 1).ok {
      FeedIff(K, W, envs, m, d, blocks, k - 1);
      BuildsFeeds(K, W, envs, m, d, blocks, k - 1);
      KnownBlocks(K, W, envs, m, d, blocks, k);
      BuildsMore(K, envs, d, m.ledger, m.indexOf.Keys, blocks, k - 1);
    }
    if Builds(K, envs, d, m.ledger, m.indexOf.Keys, blocks, k) {
      BuildsFeeds(K, W, envs, m, d, blocks, k);
      FedFine(K, W, envs, m, d, blocks, k);
      FedPasses(K, W, envs, m, d, blocks, k);
    }
  }

  lemma FedFine(K: Oracle, W: World, envs: seq<Env>, m: NodeState, d: seq<Block>, blocks: seq<Block>, k: nat)
    requires |envs| == |blocks| && k <= |blocks| && FedTo(K, W, envs, m, d, blocks, k)
    ensures Feed(K, envs, m, blocks, k).ok
  {
    hide Feed;
    hide Tracks;
  }

  // ---- rpc_adopt_peer_chain ----

  /** The ledger adoption starts from: the node's own on its tip, otherwise the replay of the stored chain. */
  ghost function BaseLedger(n: NodeState, ancestor: Hash): State {
    if n.heights != [] && n.bestHash == ancestor then n.ledger else
    match Replay(ChainAt(n.store, ancestor)) case Some(s) => s case None => EMPTY
  }

  /** Every block builds on the chain of the ancestor, and none but possibly the last is known. */
  ghost predicate Adoptable(K: Oracle, envs: seq<Env>, n: NodeState, ancestor: Hash, blocks: seq<Block>)
    requires |envs| == |blocks| && blocks != []
  {
    var d, s, k := ChainAt(n.store, ancestor), BaseLedger(n, ancestor), |blocks| - 1;
    Builds(K, envs, d, s, Known(n, d), blocks, k) && ValidAt(K, envs, d, s, blocks, k)
  }

  /** A stored ancestor gives a node to start from, with its chain, its ledger and what is known. */
  lemma StartsAt(K: Oracle, W: World, n: NodeState, c: seq<Block>, ancestor: Hash)
    requires CollisionFree(K.sha, W.corpus) && NodeInv(K, W, n, c)
    ensures StartOf(n, ancestor).Replayed? <==> !NotStored(n.store, ancestor)
    ensures StartOf(n, ancestor).Replayed? ==>
              var m, d := StartOf(n, ancestor).node, ChainAt(n.store, ancestor);
              && NodeInv(K, W, m, d) && d != [] && m.ledger == BaseLedger(n, ancestor)
              && m.indexOf.Keys == Known(n, d) && c != []
  {
    hide NodeInv;
    hide NotStored;
    hide ReplayTo;
    hide CollisionFree;
    hide ChainAt;
    hide Replay;
    hide Placed;
    hide Hashes;
    hide GoodChain;
    hide Appended;
    ReplayWorks(K, W, n, c, ancestor);
    AdoptStart(K, W, n, c, ancestor);
    HadTip(K, W, n, c);
    if c != [] { TipStored(K, W, n, c); }
  }

  /**
   * `rpc_adopt_peer_chain`, exactly: a linked list is adopted if and only if it ends above the local tip, its
   * ancestor is stored, and it builds on the ancestor's chain, the tip's or any other. If the last block is new
   * the node is then on that chain and the list, with the ledger of replaying it.
   */
  lemma AdoptIff(K: Oracle, W: World, envs: seq<Env>, n: NodeState, c: seq<Block>, ancestor: Hash, blocks: seq<Block>)
    requires CollisionFree(K.sha, W.corpus) && NodeInv(K, W, n, c) && |envs| == |blocks|
    requires AllMayStore(K, W, blocks) && PeerList(blocks)
    ensures Adopt(K, envs, n, ancestor, blocks).Adopted? <==>
              && blocks[|blocks| - 1].height > LocalHeight(n) && !NotStored(n.store, ancestor)
              && Adoptable(K, envs, n, ancestor, blocks)
    ensures var known := Known(n, ChainAt(n.store, ancestor));
            Adopt(K, envs, n, ancestor, blocks).Adopted? && blocks[|blocks| - 1].hash !in known ==>
              OnTop(K, n, ancestor, blocks, Adopt(K, envs, n, ancestor, blocks).node)
  {
    hide NodeInv;
    hide Tracks;
    hide NotStored;
    hide ReplayTo;
    hide CollisionFree;
    hide ChainAt;
    hide AllMayStore;
    hide Feed;
    hide FedTo;
    hide Builds;
    hide ValidAt;
    hide OnTop;
    hide BaseLedger;
    hide Known;
    StartsAt(K, W, n, c, ancestor);
    var start, d, k := StartOf(n, ancestor), ChainAt(n.store, ancestor), |blocks| - 1;
    if start.Replayed? {
      var m := start.node;
      InvTracks(K, W, m, d);
      FeedIff(K, W, envs, m, d, blocks, k);
      if Adoptable(K, envs, n, ancestor, blocks) && blocks[k].hash !in Known(n, d) {
        BuildsMore(K, envs, d, m.ledger, m.indexOf.Keys, blocks, k);
        BuildsFeeds(K, W, envs, m, d, blocks, k + 1);
        FedOnTop(K, W, envs, n, ancestor, blocks);
      }
    }
  }

  /** Node `m` is on the ancestor's chain and the whole list. */
  ghost predicate OnTop(K: Oracle, n: NodeState, ancestor: Hash, blocks: seq<Block>, m: NodeState)
    requires blocks != []
  {
    && m.bestHash == blocks[|blocks| - 1].hash && m.bestHeight == |ChainAt(n.store, ancestor)| + |blocks|
    && Placed(m, ChainAt(n.store, ancestor) + StoredForms(K, blocks, |blocks|))
    && LedgerOn(K, BaseLedger(n, ancestor), blocks, |blocks|) == Some(m.ledger)
  }

  lemma FedOnTop(K: Oracle, W: World, envs: seq<Env>, n: NodeState, ancestor: Hash, blocks: seq<Block>)
    requires |envs| == |blocks| && blocks != [] && StartOf(n, ancestor).Replayed?
    requires StartOf(n, ancestor).node.ledger == BaseLedger(n, ancestor)
    requires FedTo(K, W, envs, StartOf(n, ancestor).node, ChainAt(n.store, ancestor), blocks, |blocks|)
    ensures OnTop(K, n, ancestor, blocks, Feed(K, envs, StartOf(n, ancestor).node, blocks, |blocks|).node)
  {
    hide ChainAt;
    hide StartOf;
    hide BaseLedger;
    hide Feed;
    hide LedgerOn;
    hide GoodChain;
    hide Follows;
    hide Indexed;
    hide Listed;
    hide HeightsOf;
    hide HashSet;
    hide Stored;
    var k := |blocks| - 1;
    assert StoredForms(K, blocks, k + 1)[|StoredForms(K, blocks, k)|] == Stored(K.sha, blocks[k]);
    StoredHash(K.sha, blocks[k]);
    FormsCount(K, blocks, |blocks|);
  }

  lemma {:induction false} FormsCount(K: Oracle, blocks: seq<Block>, k: nat)
    requires k <= |blocks|
    ensures |StoredForms(K, blocks, k)| == k
  {
    hide Stored;
    if k > 0 { FormsCount(K, blocks, k - 1); }
  }
}
