/** A peer chain is adopted whole or not at all. */
module NodeAdopt {
  import opened Types
  import opened Freshness
  import opened Chain
  import opened Node
  import opened NodeInvariant
  import opened NodeReplay

  // ---- Feeding peer blocks ----

  ghost function FedChain(K: Oracle, envs: seq<Env>, n: NodeState, c: seq<Block>, blocks: seq<Block>,
                          k: nat): seq<Block>
    requires |envs| == |blocks| && k <= |blocks|
  {
    if k == 0 then c else
    var f, d := Feed(K, envs, n, blocks, k - 1), FedChain(K, envs, n, c, blocks, k - 1);
    if !f.ok then d else ChainAfter(K, envs[k - 1], f.node, d, blocks[k - 1])
  }

  ghost predicate AllMayStore(K: Oracle, W: World, blocks: seq<Block>) {
    forall i :: 0 <= i < |blocks| ==> MayStore(K, W, blocks[i])
  }

  /** Every block that is accepted while the list is fed does what the copy of it stored first does. */
  ghost predicate FeedAgrees(K: Oracle, W: World, envs: seq<Env>, n: NodeState, blocks: seq<Block>)
    requires |envs| == |blocks|
  {
    forall k :: 0 <= k < |blocks| && Feed(K, envs, n, blocks, k).ok ==>
      Agrees(K, W, envs[k], Feed(K, envs, n, blocks, k).node, blocks[k])
  }

  /** Feeding only ever appends to the store, and keeps the index pointing at stored blocks. */
  lemma {:induction false} FeedAppends(K: Oracle, envs: seq<Env>, n: NodeState, blocks: seq<Block>, k: nat)
    requires |envs| == |blocks| && k <= |blocks|
    ensures Appended(n, Feed(K, envs, n, blocks, k).node)
    ensures Indexed(n) ==> Indexed(Feed(K, envs, n, blocks, k).node)
  {
    hide Submit;
    hide SubmitOutcome;
    hide Indexed;
    if k > 0 {
      FeedAppends(K, envs, n, blocks, k - 1);
      var f := Feed(K, envs, n, blocks, k - 1);
      if f.ok {
        hide Appended;
        SubmitAppends(K, envs[k - 1], f.node, blocks[k - 1]);
        if Indexed(n) { SubmitIndexes(K, envs[k - 1], f.node, blocks[k - 1]); }
        AppendedTwice(n, f.node, Submit(K, envs[k - 1], f.node, blocks[k - 1]));
      }
    }
  }

  lemma SubmitIndexes(K: Oracle, env: Env, n: NodeState, b: Block)
    requires Indexed(n)
    ensures Indexed(Submit(K, env, n, b))
  {
    hide SubmitRefusal;
    hide StageBlock;
    hide SettleBlock;
    hide SetHeight;
    hide NonZero;
    hide CoinbaseOf;
    var m, y := Submit(K, env, n, b), Stored(K.sha, b);
    if SubmitOutcome(K, env, n, b) == Accepted {
      KeysUpdate(n.indexOf, y.hash, |n.store|);
      KeysUpdate(n.headers, y.hash, HeaderOf(y));
      forall h | h in m.indexOf ensures m.indexOf[h] < |m.store| && m.store[m.indexOf[h]].hash == h {
        if h != y.hash { assert m.store[n.indexOf[h]] == n.store[n.indexOf[h]]; }
      }
    }
  }

  /** Feeding keeps the invariant for the chain it has built. */
  lemma {:induction false} FeedKeeps(K: Oracle, W: World, envs: seq<Env>, n: NodeState, c: seq<Block>,
                                     blocks: seq<Block>, k: nat)
    requires CollisionFree(K.sha, W.corpus) && NodeInv(K, W, n, c) && AllMayStore(K, W, blocks)
    requires |envs| == |blocks| && FeedAgrees(K, W, envs, n, blocks) && k <= |blocks|
    ensures NodeInv(K, W, Feed(K, envs, n, blocks, k).node, FedChain(K, envs, n, c, blocks, k))
    ensures Appended(n, Feed(K, envs, n, blocks, k).node)
  {
    hide NodeInv;
    hide Submit;
    hide SubmitOutcome;
    hide MayStore;
    hide Agrees;
    hide CollisionFree;
    hide ChainAfter;
    hide Appended;
    FeedAppends(K, envs, n, blocks, k);
    if k > 0 {
      FeedKeeps(K, W, envs, n, c, blocks, k - 1);
      var f, d := Feed(K, envs, n, blocks, k - 1), FedChain(K, envs, n, c, blocks, k - 1);
      if f.ok { SubmitKeeps(K, W, envs[k - 1], f.node, d, blocks[k - 1]); }
    }
  }

  /** With a full index to start from nothing that is fed can conflict. */
  lemma FullIndexFeeds(K: Oracle, W: World, envs: seq<Env>, n: NodeState, blocks: seq<Block>)
    requires FullIndex(n) && |envs| == |blocks|
    ensures FeedAgrees(K, W, envs, n, blocks)
  {
    hide Agrees;
    hide FullIndex;
    hide Appended;
    forall k | 0 <= k < |blocks| ensures Agrees(K, W, envs[k], Feed(K, envs, n, blocks, k).node, blocks[k]) {
      FeedAppends(K, envs, n, blocks, k);
      AppendedFull(n, Feed(K, envs, n, blocks, k).node);
      FullIndexAgrees(K, W, envs[k], Feed(K, envs, n, blocks, k).node, blocks[k]);
    }
  }

  // ---- rpc_adopt_peer_chain ----

  /** Tip and height index. */
  ghost predicate SamePlace(n: NodeState, m: NodeState) {
    m.heights == n.heights && m.bestHash == n.bestHash && m.bestHeight == n.bestHeight
  }

  /** Tip, height index and ledger: everything a caller sees of the active chain. */
  ghost predicate SameTip(n: NodeState, m: NodeState) { SamePlace(n, m) && m.ledger == n.ledger }

  lemma TipStored(K: Oracle, W: World, n: NodeState, c: seq<Block>)
    requires NodeInv(K, W, n, c) && c != []
    ensures ChainAt(n.store, n.bestHash) == c && !NotStored(n.store, n.bestHash) && GoodChain(K, W, c)
    ensures Placed(n, c) && (W.exact ==> Replay(c) == Some(n.ledger))
  {
    hide ChainAt;
    hide Replay;
    hide StoreGood;
    hide GoodChain;
    hide HeightsOf;
    hide Indexed;
    hide Listed;
    ChainAtStored(n.store, n.bestHash);
  }

  /**
   * After blocks were appended, whatever blocks, replaying the old tip restores the old tip and height
   * index, and the ledger of the replayed chain.
   */
  lemma RollBackRestores(K: Oracle, W: World, n: NodeState, c: seq<Block>, m: NodeState)
    requires CollisionFree(K.sha, W.corpus) && NodeInv(K, W, n, c) && c != [] && Appended(n, m) && Indexed(m)
    ensures var r := ReplayTo(m, n.bestHash);
            && r.Replayed? && SamePlace(n, r.node) && (W.exact ==> SameTip(n, r.node))
            && Applied(Reset(m), r.node, c) && Appended(m, r.node)
            && (StoreGood(K, W, m.store) ==> NodeInv(K, W, r.node, c))
  {
    hide NodeInv;
    hide ChainAt;
    hide ReplayTo;
    hide CollisionFree;
    hide GoodChain;
    hide StoreGood;
    hide Replay;
    hide NotStored;
    hide Indexed;
    hide Listed;
    hide HeightsOf;
    TipStored(K, W, n, c);
    var more := m.store[|n.store|..];
    assert m.store == n.store + more;
    ChainStays(n.store, more, n.bestHash);
    ReplayGood(K, W, m, n.bestHash);
    if StoreGood(K, W, m.store) { Reactivate(K, W, Reset(m), ReplayTo(m, n.bestHash).node, n.bestHash); }
  }

  ghost function StartOf(n: NodeState, ancestor: Hash): Replayed {
    if n.heights != [] && n.bestHash == ancestor then Replayed(n) else ReplayTo(n, ancestor)
  }

  lemma ListedKnown(K: Oracle, W: World, n: NodeState, c: seq<Block>)
    requires NodeInv(K, W, n, c)
    ensures Hashes(c) <= n.indexOf.Keys
  {
    hide ChainAt;
    hide Replay;
    hide StoreGood;
    hide GoodChain;
    hide HeightsOf;
    hide Indexed;
  }

  lemma TipStarts(K: Oracle, W: World, n: NodeState, c: seq<Block>)
    requires NodeInv(K, W, n, c) && c != []
    ensures ReplaysTo(K, W, n, n, n.bestHash)
  {
    hide NodeInv;
    hide NotStored;
    hide ChainAt;
    hide Hashes;
    hide Placed;
    hide GoodChain;
    hide Replay;
    ListedKnown(K, W, n, c);
    TipStored(K, W, n, c);
  }

  /** The state and chain feeding starts from. */
  lemma AdoptStart(K: Oracle, W: World, n: NodeState, c: seq<Block>, ancestor: Hash)
    requires CollisionFree(K.sha, W.corpus) && NodeInv(K, W, n, c)
    ensures !StartOf(n, ancestor).Broken?
    ensures StartOf(n, ancestor).Replayed? ==>
              c != [] && ReplaysTo(K, W, n, StartOf(n, ancestor).node, ancestor)
                  && Appended(n, StartOf(n, ancestor).node)
  {
    hide NodeInv;
    hide NotStored;
    hide ReplayTo;
    hide ReplaysTo;
    hide CollisionFree;
    hide Active;
    hide Appended;
    HadTip(K, W, n, c);
    ReplayWorks(K, W, n, c, ancestor);
    if c == [] { EmptyNotStored(ancestor); } else { TipStarts(K, W, n, c); }
    if StartOf(n, ancestor).Replayed? { ReplaysAppend(K, W, n, StartOf(n, ancestor).node, ancestor); }
  }

  lemma EmptyNotStored(h: Hash)
    ensures NotStored([], h)
  {
  }

  /** Every block that is accepted during the adoption does what the copy of it stored first does. */
  ghost predicate AdoptAgrees(K: Oracle, W: World, envs: seq<Env>, n: NodeState, ancestor: Hash, blocks: seq<Block>)
    requires |envs| == |blocks|
  {
    StartOf(n, ancestor).Replayed? ==> FeedAgrees(K, W, envs, StartOf(n, ancestor).node, blocks)
  }

  lemma StartIndexed(K: Oracle, W: World, n: NodeState, c: seq<Block>)
    requires NodeInv(K, W, n, c)
    ensures Indexed(n)
  {
    hide ChainAt;
    hide Replay;
    hide StoreGood;
    hide GoodChain;
    hide Indexed;
  }

  /**
   * All or nothing, first half: a refused or failed adoption of any list never loses the node, and leaves
   * tip and height index exactly as they were, and the UTXO set and flags too if they were what a replay
   * gives; the store only grew.
   */
  lemma AdoptNothing(K: Oracle, W: World, envs: seq<Env>, n: NodeState, c: seq<Block>,
                     ancestor: Hash, blocks: seq<Block>)
    requires CollisionFree(K.sha, W.corpus) && NodeInv(K, W, n, c) && |envs| == |blocks|
    ensures !Adopt(K, envs, n, ancestor, blocks).Lost?
    ensures var a := Adopt(K, envs, n, ancestor, blocks);
            a.Kept? ==> SamePlace(n, a.node) && (W.exact ==> SameTip(n, a.node)) && Appended(n, a.node)
  {
    hide NodeInv;
    hide ReplayTo;
    hide Feed;
    hide ChainAt;
    hide CollisionFree;
    hide Hashes;
    hide Indexed;
    hide StoreGood;
    AdoptStart(K, W, n, c, ancestor);
    HadTip(K, W, n, c);
    var start := StartOf(n, ancestor);
    if start.Replayed? {
      var m := start.node;
      StartIndexed(K, W, m, ChainAt(n.store, ancestor));
      FeedAppends(K, envs, m, blocks, |blocks|);
      var f := Feed(K, envs, m, blocks, |blocks|).node;
      AppendedTwice(n, m, f);
      RollBackRestores(K, W, n, c, f);
      AppendedTwice(n, f, ReplayTo(f, n.bestHash).node);
    }
  }

  /** And the invariant is kept, if what was stored on the way agrees with what was stored before. */
  lemma AdoptNothingKeeps(K: Oracle, W: World, envs: seq<Env>, n: NodeState, c: seq<Block>,
                          ancestor: Hash, blocks: seq<Block>)
    requires CollisionFree(K.sha, W.corpus) && NodeInv(K, W, n, c) && |envs| == |blocks|
    requires AllMayStore(K, W, blocks) && AdoptAgrees(K, W, envs, n, ancestor, blocks)
    requires Adopt(K, envs, n, ancestor, blocks).Kept?
    ensures NodeInv(K, W, Adopt(K, envs, n, ancestor, blocks).node, c)
  {
    hide NodeInv;
    hide ReplayTo;
    hide Feed;
    hide FedChain;
    hide ChainAt;
    hide CollisionFree;
    hide Hashes;
    hide Indexed;
    hide StoreGood;
    hide FeedAgrees;
    hide AllMayStore;
    hide Appended;
    AdoptStart(K, W, n, c, ancestor);
    HadTip(K, W, n, c);
    var start := StartOf(n, ancestor);
    if start.Replayed? {
      var m, d := start.node, ChainAt(n.store, ancestor);
      FeedKeeps(K, W, envs, m, d, blocks, |blocks|);
      var f := Feed(K, envs, m, blocks, |blocks|).node;
      StoreIsGood(K, W, f, FedChain(K, envs, m, d, blocks, |blocks|));
      StartIndexed(K, W, f, FedChain(K, envs, m, d, blocks, |blocks|));
      AppendedTwice(n, m, f);
      RollBackRestores(K, W, n, c, f);
    }
  }

  lemma HadTip(K: Oracle, W: World, n: NodeState, c: seq<Block>)
    requires NodeInv(K, W, n, c)
    ensures n.heights != [] <==> c != []
    ensures LocalHeight(n) == |c| && n.bestHash == TipHash(c)
    ensures c == [] ==> n.store == []
  {
    hide ChainAt;
    hide Replay;
    hide StoreGood;
    hide GoodChain;
    hide Indexed;
    hide Listed;
  }

  // ---- What success means ----

  /** A list as the caller builds it: consecutive links, no hash twice, and the first block is not its own parent. */
  ghost predicate PeerList(blocks: seq<Block>) {
    && blocks != []
    && (forall i, k :: 0 <= i < k == i + 1 < |blocks| ==> blocks[k].prev == blocks[i].hash)
    && (forall i, j :: 0 <= i < j < |blocks| ==> blocks[i].hash != blocks[j].hash)
    && blocks[0].hash != blocks[0].prev
  }

  /** The first `k` blocks as a replay of this store would use them. */
  ghost function FirstCopies(K: Oracle, store: seq<Block>, blocks: seq<Block>, k: nat): (r: seq<Block>)
    requires k <= |blocks|
    ensures |r| == k
  {
    if k == 0 then [] else FirstCopies(K, store, blocks, k - 1) + [FirstCopy(store, Stored(K.sha, blocks[k - 1]))]
  }

  ghost function HashSet(blocks: seq<Block>, k: nat): set<Hash>
    requires k <= |blocks|
  {
    if k == 0 then {} else HashSet(blocks, k - 1) + {blocks[k - 1].hash}
  }

  lemma {:induction false} NotInHashSet(blocks: seq<Block>, k: nat, i: nat)
    requires PeerList(blocks) && k <= i < |blocks|
    ensures blocks[i].hash !in HashSet(blocks, k)
  {
    if k > 0 { NotInHashSet(blocks, k - 1, i); }
  }

  /** The first `k` blocks were all accepted, one on top of the other. */
  ghost predicate Connected(K: Oracle, envs: seq<Env>, n: NodeState, c: seq<Block>, blocks: seq<Block>, k: nat)
    requires |envs| == |blocks| && k <= |blocks|
  {
    var f := Feed(K, envs, n, blocks, k);
    && f.ok && FedChain(K, envs, n, c, blocks, k) == c + FirstCopies(K, n.store, blocks, k)
    && f.node.indexOf.Keys == n.indexOf.Keys + HashSet(blocks, k)
  }

  lemma AcceptedIndexes(K: Oracle, env: Env, n: NodeState, b: Block)
    requires SubmitOutcome(K, env, n, b) == Accepted
    ensures Submit(K, env, n, b).indexOf.Keys == n.indexOf.Keys + {b.hash} && b.hash !in n.indexOf
  {
    hide SubmitRefusal;
    hide StageBlock;
    hide SettleBlock;
    hide SetHeight;
    hide NonZero;
    hide CoinbaseOf;
    hide HeaderOf;
  }

  /** The copy of an accepted block that counts is decided by the store feeding started from. */
  lemma FedCopy(K: Oracle, W: World, n: NodeState, c: seq<Block>, m: NodeState, b: Block)
    requires NodeInv(K, W, n, c) && Appended(n, m) && b.hash !in m.indexOf
    ensures FirstCopy(m.store, Stored(K.sha, b)) == FirstCopy(n.store, Stored(K.sha, b))
  {
    hide NodeInv;
    hide StoreGood;
    hide FirstCopy;
    hide Stored;
    hide Appended;
    StoreIsGood(K, W, n, c);
    StoredHash(K.sha, b);
    CopyStays(K, W, n, m, Stored(K.sha, b));
  }

  lemma ConnectedStep(K: Oracle, W: World, envs: seq<Env>, n: NodeState, c: seq<Block>,
                      blocks: seq<Block>, k: nat)
    requires |envs| == |blocks| && k < |blocks| && Connected(K, envs, n, c, blocks, k)
    requires NodeInv(K, W, n, c) && Appended(n, Feed(K, envs, n, blocks, k).node)
    requires SubmitOutcome(K, envs[k], Feed(K, envs, n, blocks, k).node, blocks[k]) == Accepted
    ensures Connected(K, envs, n, c, blocks, k + 1)
  {
    hide NodeInv;
    hide Appended;
    hide Submit;
    hide SubmitOutcome;
    hide Stored;
    hide FirstCopy;
    var f := Feed(K, envs, n, blocks, k).node;
    AcceptedIndexes(K, envs[k], f, blocks[k]);
    FedCopy(K, W, n, c, f, blocks[k]);
    var x := FirstCopy(n.store, Stored(K.sha, blocks[k]));
    assert c + FirstCopies(K, n.store, blocks, k) + [x] == c + FirstCopies(K, n.store, blocks, k + 1);
  }

  /** The tip that block `k` of a fed list had to extend when it was not rejected. */
  lemma NotRejected(K: Oracle, W: World, envs: seq<Env>, n: NodeState, c: seq<Block>,
                    blocks: seq<Block>, k: nat)
    requires CollisionFree(K.sha, W.corpus) && NodeInv(K, W, n, c) && AllMayStore(K, W, blocks)
    requires |envs| == |blocks| && k < |blocks| && Feed(K, envs, n, blocks, k + 1).ok
    requires FeedAgrees(K, W, envs, n, blocks)
    ensures Feed(K, envs, n, blocks, k).ok && Appended(n, Feed(K, envs, n, blocks, k).node)
    ensures !SubmitOutcome(K, envs[k], Feed(K, envs, n, blocks, k).node, blocks[k]).Rejected?
    ensures blocks[k].prev == TipHash(FedChain(K, envs, n, c, blocks, k))
    ensures blocks[k].height == |FedChain(K, envs, n, c, blocks, k)| + 1
  {
    hide NodeInv;
    hide SubmitRefusal;
    hide Submit;
    hide MayStore;
    hide AllMayStore;
    hide FeedAgrees;
    hide Appended;
    hide CollisionFree;
    hide FedChain;
    FeedKeeps(K, W, envs, n, c, blocks, k);
    PassingHeight(K, W, envs[k], Feed(K, envs, n, blocks, k).node, FedChain(K, envs, n, c, blocks, k), blocks[k]);
  }

  lemma NotOwnParent(blocks: seq<Block>, k: nat)
    requires PeerList(blocks) && k < |blocks|
    ensures blocks[k].hash != blocks[k].prev
    ensures k > 0 ==> blocks[k].prev == blocks[k - 1].hash
  {
    if k > 0 { assert blocks[k].prev == blocks[k - 1].hash; }
  }

  /** A block that moved the tip was accepted. */
  lemma MovedIsAccepted(K: Oracle, env: Env, n: NodeState, b: Block, c: seq<Block>, d: seq<Block>, next: Block)
    requires d == ChainAfter(K, env, n, c, b) && b.prev == TipHash(c) && next.prev == TipHash(d)
    requires next.prev == b.hash && b.hash != b.prev && !SubmitOutcome(K, env, n, b).Rejected?
    ensures SubmitOutcome(K, env, n, b) == Accepted
  {
    hide SubmitRefusal;
    hide Stored;
    hide FirstCopy;
  }

  lemma FedChainStep(K: Oracle, envs: seq<Env>, n: NodeState, c: seq<Block>, blocks: seq<Block>, k: nat)
    requires |envs| == |blocks| && k < |blocks| && Feed(K, envs, n, blocks, k).ok
    ensures FedChain(K, envs, n, c, blocks, k + 1)
         == ChainAfter(K, envs[k], Feed(K, envs, n, blocks, k).node, FedChain(K, envs, n, c, blocks, k), blocks[k])
  {
    hide Feed;
    hide ChainAfter;
  }

  /** The block before one that is reached in a linked list was accepted. */
  lemma PrevAccepted(K: Oracle, W: World, envs: seq<Env>, n: NodeState, c: seq<Block>, blocks: seq<Block>, k: nat)
    requires CollisionFree(K.sha, W.corpus) && NodeInv(K, W, n, c) && AllMayStore(K, W, blocks)
    requires PeerList(blocks) && |envs| == |blocks| && 0 < k < |blocks| && Feed(K, envs, n, blocks, k + 1).ok
    requires FeedAgrees(K, W, envs, n, blocks)
    ensures Feed(K, envs, n, blocks, k).ok && Appended(n, Feed(K, envs, n, blocks, k - 1).node)
    ensures SubmitOutcome(K, envs[k - 1], Feed(K, envs, n, blocks, k - 1).node, blocks[k - 1]) == Accepted
  {
    hide NodeInv;
    hide SubmitOutcome;
    hide AllMayStore;
    hide FeedAgrees;
    hide CollisionFree;
    hide Appended;
    hide PeerList;
    hide ChainAfter;
    hide Feed;
    hide FedChain;
    hide TipHash;
    NotRejected(K, W, envs, n, c, blocks, k);
    NotRejected(K, W, envs, n, c, blocks, k - 1);
    NotOwnParent(blocks, k);
    NotOwnParent(blocks, k - 1);
    FedChainStep(K, envs, n, c, blocks, k - 1);
    MovedIsAccepted(K, envs[k - 1], Feed(K, envs, n, blocks, k - 1).node, blocks[k - 1],
                    FedChain(K, envs, n, c, blocks, k - 1), FedChain(K, envs, n, c, blocks, k), blocks[k]);
  }

  lemma NothingConnected(K: Oracle, envs: seq<Env>, n: NodeState, c: seq<Block>, blocks: seq<Block>)
    requires |envs| == |blocks|
    ensures Connected(K, envs, n, c, blocks, 0)
  {
    assert c + FirstCopies(K, n.store, blocks, 0) == c;
  }

  /** In a linked list a block can only be reached if every block before it really moved the tip. */
  lemma {:induction false} ReachedMeansConnected(K: Oracle, W: World, envs: seq<Env>, n: NodeState,
                                                 c: seq<Block>, blocks: seq<Block>, k: nat)
    requires CollisionFree(K.sha, W.corpus) && NodeInv(K, W, n, c) && AllMayStore(K, W, blocks)
    requires PeerList(blocks) && |envs| == |blocks| && k < |blocks| && Feed(K, envs, n, blocks, k + 1).ok
    requires FeedAgrees(K, W, envs, n, blocks)
    ensures Connected(K, envs, n, c, blocks, k)
    ensures k > 0 ==> blocks[k - 1].hash !in Feed(K, envs, n, blocks, k - 1).node.indexOf
  {
    hide NodeInv;
    hide SubmitOutcome;
    hide Submit;
    hide AllMayStore;
    hide FeedAgrees;
    hide CollisionFree;
    hide Appended;
    hide PeerList;
    hide Feed;
    hide Connected;
    if k == 0 {
      NothingConnected(K, envs, n, c, blocks);
    } else {
      PrevAccepted(K, W, envs, n, c, blocks, k);
      ReachedMeansConnected(K, W, envs, n, c, blocks, k - 1);
      AcceptedIndexes(K, envs[k - 1], Feed(K, envs, n, blocks, k - 1).node, blocks[k - 1]);
      ConnectedStep(K, W, envs, n, c, blocks, k - 1);
    }
  }

  /** What the last block adds, when it is not rejected. */
  lemma LastStep(K: Oracle, W: World, envs: seq<Env>, m: NodeState, d: seq<Block>, blocks: seq<Block>,
                 k: nat)
    requires |envs| == |blocks| && k < |blocks| && Connected(K, envs, m, d, blocks, k)
    requires NodeInv(K, W, m, d) && Appended(m, Feed(K, envs, m, blocks, k).node)
    requires !SubmitOutcome(K, envs[k], Feed(K, envs, m, blocks, k).node, blocks[k]).Rejected?
    requires blocks[k].hash !in HashSet(blocks, k)
    ensures FedChain(K, envs, m, d, blocks, k + 1)
         == d + FirstCopies(K, m.store, blocks, if blocks[k].hash in m.indexOf then k else k + 1)
  {
    hide NodeInv;
    hide Appended;
    hide SubmitRefusal;
    hide Submit;
    hide Stored;
    hide FirstCopy;
    hide HashSet;
    var f := Feed(K, envs, m, blocks, k).node;
    assert blocks[k].hash in f.indexOf <==> blocks[k].hash in m.indexOf;
    if blocks[k].hash !in f.indexOf { FedCopy(K, W, m, d, f, blocks[k]); }
    var x := FirstCopy(m.store, Stored(K.sha, blocks[k]));
    assert d + FirstCopies(K, m.store, blocks, k) + [x] == d + FirstCopies(K, m.store, blocks, k + 1);
  }

  /** Where the last block of a fed list that was not rejected had to attach. */
  lemma LastAttaches(K: Oracle, W: World, envs: seq<Env>, m: NodeState, d: seq<Block>, blocks: seq<Block>,
                     k: nat)
    requires CollisionFree(K.sha, W.corpus) && NodeInv(K, W, m, d) && AllMayStore(K, W, blocks)
    requires PeerList(blocks) && |envs| == |blocks| == k + 1 && Feed(K, envs, m, blocks, k + 1).ok
    requires FeedAgrees(K, W, envs, m, blocks)
    ensures blocks[k].height == |d| + k + 1
    ensures blocks[k].prev == TipHash(d + FirstCopies(K, m.store, blocks, k))
  {
    hide NodeInv;
    hide AllMayStore;
    hide FeedAgrees;
    hide CollisionFree;
    hide Feed;
    hide FedChain;
    hide HashSet;
    hide SubmitOutcome;
    hide PeerList;
    hide Appended;
    ReachedMeansConnected(K, W, envs, m, d, blocks, k);
    NotRejected(K, W, envs, m, d, blocks, k);
  }

  /** The chain such a list leaves active. */
  lemma FedToEnd(K: Oracle, W: World, envs: seq<Env>, m: NodeState, d: seq<Block>, blocks: seq<Block>,
                 k: nat)
    requires CollisionFree(K.sha, W.corpus) && NodeInv(K, W, m, d) && AllMayStore(K, W, blocks)
    requires PeerList(blocks) && |envs| == |blocks| == k + 1 && Feed(K, envs, m, blocks, k + 1).ok
    requires FeedAgrees(K, W, envs, m, blocks)
    ensures NodeInv(K, W, Feed(K, envs, m, blocks, k + 1).node,
                    d + FirstCopies(K, m.store, blocks, if blocks[k].hash in m.indexOf then k else k + 1))
  {
    hide NodeInv;
    hide AllMayStore;
    hide FeedAgrees;
    hide CollisionFree;
    hide Feed;
    hide FedChain;
    hide HashSet;
    hide SubmitOutcome;
    hide PeerList;
    hide FirstCopies;
    hide Appended;
    ReachedMeansConnected(K, W, envs, m, d, blocks, k);
    NotRejected(K, W, envs, m, d, blocks, k);
    FeedKeeps(K, W, envs, m, d, blocks, k + 1);
    NotInHashSet(blocks, k, k);
    LastStep(K, W, envs, m, d, blocks, k);
  }

  /** Blocks that moved the tip were not indexed before. */
  lemma {:induction false} FreshUpTo(K: Oracle, W: World, envs: seq<Env>, m: NodeState, d: seq<Block>,
                                     blocks: seq<Block>, k: nat)
    requires CollisionFree(K.sha, W.corpus) && NodeInv(K, W, m, d) && AllMayStore(K, W, blocks)
    requires PeerList(blocks) && |envs| == |blocks| && k < |blocks| && Feed(K, envs, m, blocks, k + 1).ok
    requires FeedAgrees(K, W, envs, m, blocks)
    ensures m.indexOf.Keys !! HashSet(blocks, k)
  {
    hide NodeInv;
    hide AllMayStore;
    hide FeedAgrees;
    hide CollisionFree;
    hide SubmitOutcome;
    hide Submit;
    hide FedChain;
    hide FirstCopies;
    hide PeerList;
    hide Appended;
    if k > 0 {
      NotRejected(K, W, envs, m, d, blocks, k);
      FreshUpTo(K, W, envs, m, d, blocks, k - 1);
      ReachedMeansConnected(K, W, envs, m, d, blocks, k);
      ReachedMeansConnected(K, W, envs, m, d, blocks, k - 1);
    }
  }

  /** What a node knows when it starts feeding on the stored chain `d`: its index, and the hashes of `d`. */
  ghost function Known(n: NodeState, d: seq<Block>): set<Hash> { n.indexOf.Keys + Hashes(d) }

  /**
   * All or nothing, second half. When adoption of a linked list succeeds, every block but possibly the
   * last was new, and the active chain is the ancestor's chain plus the list; the last block is the new
   * tip, strictly taller than before, if and only if its hash was not known already.
   */
  lemma AdoptWhole(K: Oracle, W: World, envs: seq<Env>, n: NodeState, c: seq<Block>,
                   ancestor: Hash, blocks: seq<Block>)
    requires CollisionFree(K.sha, W.corpus) && NodeInv(K, W, n, c)
    requires |envs| == |blocks| && AllMayStore(K, W, blocks) && AdoptAgrees(K, W, envs, n, ancestor, blocks)
    requires PeerList(blocks) && Adopt(K, envs, n, ancestor, blocks).Adopted?
    ensures var m, d := Adopt(K, envs, n, ancestor, blocks).node, ChainAt(n.store, ancestor);
            var last := blocks[|blocks| - 1];
            var moved := last.hash !in Known(n, d);
            && Known(n, d) !! HashSet(blocks, |blocks| - 1)
            && NodeInv(K, W, m, d + FirstCopies(K, n.store, blocks, if moved then |blocks| else |blocks| - 1))
            && (m.bestHash == last.hash <==> moved)
            && (moved ==> m.bestHeight == last.height > LocalHeight(n))
            && (!moved ==> m.bestHeight == last.height - 1 >= LocalHeight(n))
  {
    hide NodeInv;
    hide ReplayTo;
    hide Feed;
    hide ChainAt;
    hide CollisionFree;
    hide AllMayStore;
    hide FeedAgrees;
    hide Appended;
    hide Hashes;
    hide FirstCopy;
    AdoptedNode(K, envs, n, ancestor, blocks);
    hide Adopt;
    AdoptStart(K, W, n, c, ancestor);
    var m, d, k := StartOf(n, ancestor).node, ChainAt(n.store, ancestor), |blocks| - 1;
    LastAttaches(K, W, envs, m, d, blocks, k);
    FedToEnd(K, W, envs, m, d, blocks, k);
    FreshUpTo(K, W, envs, m, d, blocks, k);
    var last, f := blocks[k], Feed(K, envs, m, blocks, |blocks|).node;
    var moved := last.hash !in Known(n, d);
    NotOwnParent(blocks, k);
    TopOf(K, W, f, d, m.store, blocks, k, moved);
  }

  lemma TopOf(K: Oracle, W: World, f: NodeState, d: seq<Block>, store: seq<Block>, blocks: seq<Block>,
              k: nat, moved: bool)
    requires k < |blocks| && NodeInv(K, W, f, d + FirstCopies(K, store, blocks, if moved then k + 1 else k))
    requires blocks[k].height == |d| + k + 1 && blocks[k].prev == TipHash(d + FirstCopies(K, store, blocks, k))
    requires blocks[k].hash != blocks[k].prev
    ensures f.bestHash == blocks[k].hash <==> moved
    ensures f.bestHeight == if moved then blocks[k].height else blocks[k].height - 1
  {
    hide NodeInv;
    hide FirstCopy;
    hide Stored;
    var e := d + FirstCopies(K, store, blocks, if moved then k + 1 else k);
    HadTip(K, W, f, e);
    HeightIs(K, W, f, e);
    if moved {
      assert e[|e| - 1] == FirstCopy(store, Stored(K.sha, blocks[k]));
      CopyHash(store, Stored(K.sha, blocks[k]));
      StoredHash(K.sha, blocks[k]);
    }
  }

  lemma HeightIs(K: Oracle, W: World, n: NodeState, c: seq<Block>)
    requires NodeInv(K, W, n, c)
    ensures n.bestHeight == |c|
  {
    hide ChainAt;
    hide Replay;
    hide StoreGood;
    hide GoodChain;
    hide Indexed;
    hide Listed;
  }

  // ---- Before the first restart ----

  /** The first `k` blocks as they are stored. */
  function StoredForms(K: Oracle, blocks: seq<Block>, k: nat): (r: seq<Block>)
    requires k <= |blocks|
  {
    if k == 0 then [] else StoredForms(K, blocks, k - 1) + [Stored(K.sha, blocks[k - 1])]
  }

  /** While every stored block is indexed, a block that is not known is new, and is kept as it is stored. */
  lemma FullIndexKeeps(K: Oracle, n: NodeState, b: Block)
    requires FullIndex(n) && b.hash !in n.indexOf
    ensures FirstCopy(n.store, Stored(K.sha, b)) == Stored(K.sha, b)
  {
    hide ChainAt;
    hide Stored;
    StoredHash(K.sha, b);
    if ChainAt(n.store, b.hash) != [] { ChainAtStored(n.store, b.hash); }
  }

  lemma {:induction false} NewAreKept(K: Oracle, n: NodeState, blocks: seq<Block>, k: nat)
    requires FullIndex(n) && k <= |blocks| && n.indexOf.Keys !! HashSet(blocks, k)
    ensures FirstCopies(K, n.store, blocks, k) == StoredForms(K, blocks, k)
  {
    hide FullIndex;
    hide FirstCopy;
    hide Stored;
    if k > 0 {
      NewAreKept(K, n, blocks, k - 1);
      FullIndexKeeps(K, n, blocks[k - 1]);
    }
  }

  /**
   * Until the first restart an adopted list is active exactly as it was offered: the ancestor's chain
   * and the stored forms of the blocks, with nothing assumed about copies.
   */
  lemma AdoptedAsOffered(K: Oracle, W: World, envs: seq<Env>, n: NodeState, c: seq<Block>,
                         ancestor: Hash, blocks: seq<Block>)
    requires CollisionFree(K.sha, W.corpus) && NodeInv(K, W, n, c) && FullIndex(n)
    requires |envs| == |blocks| && AllMayStore(K, W, blocks) && PeerList(blocks)
    requires Adopt(K, envs, n, ancestor, blocks).Adopted?
    ensures var m, last := Adopt(K, envs, n, ancestor, blocks).node, blocks[|blocks| - 1];
            var kept := if last.hash in Known(n, ChainAt(n.store, ancestor)) then |blocks| - 1 else |blocks|;
            NodeInv(K, W, m, ChainAt(n.store, ancestor) + StoredForms(K, blocks, kept))
  {
    hide NodeInv;
    hide Adopt;
    hide FeedAgrees;
    hide FullIndex;
    hide ChainAt;
    hide CollisionFree;
    hide AllMayStore;
    hide FirstCopies;
    hide StoredForms;
    hide Appended;
    hide StartOf;
    hide Hashes;
    AdoptStart(K, W, n, c, ancestor);
    if StartOf(n, ancestor).Replayed? {
      AppendedFull(n, StartOf(n, ancestor).node);
      FullIndexFeeds(K, W, envs, StartOf(n, ancestor).node, blocks);
    }
    AdoptWhole(K, W, envs, n, c, ancestor, blocks);
    var d := ChainAt(n.store, ancestor);
    var kept := if blocks[|blocks| - 1].hash in Known(n, d) then |blocks| - 1 else |blocks|;
    NewAreKept(K, n, blocks, kept);
  }

  // ---- A block offered a second time ----

  lemma SameHeader(n: NodeState, m: NodeState, c: seq<Block>)
    requires Listed(n, c) && Listed(m, c) && Placed(n, c) && Placed(m, c)
    ensures SamePlace(n, m) && (n.heights != [] ==> BestHeader(n) == BestHeader(m))
  {
    hide HeightsOf;
    if c != [] { assert n.bestHash == c[|c| - 1].hash; }
  }

  /** The checks see the active chain and the ledger only. */
  lemma SameTipSameVerdict(K: Oracle, W: World, env: Env, n: NodeState, m: NodeState, c: seq<Block>, b: Block)
    requires GoodChain(K, W, c) && Listed(n, c) && Listed(m, c) && Placed(n, c) && Placed(m, c) && n.ledger == m.ledger
    ensures SubmitRefusal(K, env, n, b) == SubmitRefusal(K, env, m, b)
  {
    hide NextDifficulty;
    hide BodyRefusal;
    hide SealRefusal;
    hide ChainDifficulty;
    hide GoodChain;
    hide Listed;
    hide Placed;
    hide BestHeader;
    DifficultyIsChains(K, W, n, c);
    DifficultyIsChains(K, W, m, c);
    SameHeader(n, m, c);
  }

  /** The two blocks of a list whose second block is refused. */
  lemma FirstStays(K: Oracle, envs: seq<Env>, n: NodeState, x: Block, y: Block)
    requires |envs| == 2 && n.heights != [] && y.height > LocalHeight(n)
    requires SubmitOutcome(K, envs[0], n, x) == Accepted && Adopt(K, envs, n, n.bestHash, [x, y]).Kept?
    ensures var f := Submit(K, envs[0], n, x);
            Adopt(K, envs, n, n.bestHash, [x, y]) == RollBack(f, true, n.bestHash) && x.hash in f.indexOf
  {
    hide SubmitOutcome;
    hide Submit;
    hide RollBack;
    AcceptedIndexes(K, envs[0], n, x);
    var f := Submit(K, envs[0], n, x);
    assert Feed(K, envs, n, [x, y], 1) == Fed(f, true) by { assert Feed(K, envs, n, [x, y], 0) == Fed(n, true); }
    if SubmitOutcome(K, envs[1], f, y).Rejected? { RejectedKeeps(K, envs[1], f, y); }
  }

  lemma RejectedKeeps(K: Oracle, env: Env, n: NodeState, b: Block)
    requires SubmitOutcome(K, env, n, b).Rejected?
    ensures Submit(K, env, n, b) == n
  {
  }

  lemma ActiveParts(K: Oracle, W: World, n: NodeState, c: seq<Block>)
    requires NodeInv(K, W, n, c)
    ensures GoodChain(K, W, c) && Listed(n, c) && Placed(n, c)
  {
    hide ChainAt;
    hide Replay;
    hide StoreGood;
    hide GoodChain;
    hide Indexed;
    hide Listed;
    hide Placed;
  }

  /** After the roll back the first block is still indexed, and the active chain is as it was. */
  lemma StillIndexed(K: Oracle, W: World, envs: seq<Env>, n: NodeState, c: seq<Block>, x: Block, y: Block)
    requires CollisionFree(K.sha, W.corpus) && NodeInv(K, W, n, c) && c != [] && |envs| == 2
    requires y.height > LocalHeight(n)
    requires SubmitOutcome(K, envs[0], n, x) == Accepted && Adopt(K, envs, n, n.bestHash, [x, y]).Kept?
    ensures var m := Adopt(K, envs, n, n.bestHash, [x, y]).node;
            x.hash in m.indexOf && Listed(m, c) && Placed(m, c)
  {
    hide NodeInv;
    hide Adopt;
    hide Submit;
    hide SubmitOutcome;
    hide CollisionFree;
    hide ReplayTo;
    hide Indexed;
    hide Listed;
    hide Placed;
    hide Replay;
    hide StoreGood;
    HadTip(K, W, n, c);
    FirstStays(K, envs, n, x, y);
    var f := Submit(K, envs[0], n, x);
    StartIndexed(K, W, n, c);
    SubmitIndexes(K, envs[0], n, x);
    SubmitAppends(K, envs[0], n, x);
    RollBackRestores(K, W, n, c, f);
  }

  /**
   * Success without moving is reachable, from every reachable node with a tip: offer a good block together
   * with one that is refused, and the roll back leaves the good block indexed. Offering it again, alone,
   * then reports success and leaves the node one block short of it.
   */
  lemma OfferedAgainSticks(K: Oracle, W: World, envs: seq<Env>, n: NodeState, c: seq<Block>, x: Block, y: Block)
    requires W.exact && CollisionFree(K.sha, W.corpus) && NodeInv(K, W, n, c) && c != [] && |envs| == 2
    requires y.height > LocalHeight(n)
    requires SubmitOutcome(K, envs[0], n, x) == Accepted && Adopt(K, envs, n, n.bestHash, [x, y]).Kept?
    ensures var m := Adopt(K, envs, n, n.bestHash, [x, y]).node;
            SameTip(n, m) && x.height == m.bestHeight + 1 && Adopt(K, envs[..1], m, m.bestHash, [x]) == Adopted(m)
  {
    hide NodeInv;
    hide Submit;
    hide SubmitRefusal;
    hide CollisionFree;
    hide ReplayTo;
    hide Listed;
    hide Placed;
    hide GoodChain;
    AdoptNothing(K, W, envs, n, c, n.bestHash, [x, y]);
    HadTip(K, W, n, c);
    HeightIs(K, W, n, c);
    ActiveParts(K, W, n, c);
    PassingHeight(K, W, envs[0], n, c, x);
    var m := Adopt(K, envs, n, n.bestHash, [x, y]).node;
    StillIndexed(K, W, envs, n, c, x, y);
    SameTipSameVerdict(K, W, envs[0], n, m, c, x);
    OnlyOneFed(K, envs[..1], m, x);
  }

  lemma OnlyOneFed(K: Oracle, envs: seq<Env>, m: NodeState, x: Block)
    requires |envs| == 1 && m.heights != [] && x.height > LocalHeight(m)
    requires SubmitOutcome(K, envs[0], m, x) == AlreadyKnown
    ensures Adopt(K, envs, m, m.bestHash, [x]) == Adopted(m)
  {
    hide SubmitRefusal;
    hide Connect;
    assert Feed(K, envs, m, [x], 0) == Fed(m, true);
    assert Submit(K, envs[0], m, x) == m;
    assert Feed(K, envs, m, [x], 1) == Fed(m, true);
  }

  /** A successful adoption fed every block, and the last one is above the old tip. */
  lemma AdoptedNode(K: Oracle, envs: seq<Env>, n: NodeState, ancestor: Hash, blocks: seq<Block>)
    requires |envs| == |blocks| && Adopt(K, envs, n, ancestor, blocks).Adopted?
    ensures blocks != [] && blocks[|blocks| - 1].height > LocalHeight(n)
    ensures var start := StartOf(n, ancestor);
            && start.Replayed? && Feed(K, envs, start.node, blocks, |blocks|).ok
            && Adopt(K, envs, n, ancestor, blocks).node == Feed(K, envs, start.node, blocks, |blocks|).node
  {
    hide ReplayTo;
    hide Feed;
  }

  /** A list fed to the end leaves a chain at least as tall as the last block's parent. */
  lemma FedTall(K: Oracle, W: World, envs: seq<Env>, m: NodeState, e: seq<Block>, blocks: seq<Block>)
    returns (d: seq<Block>)
    requires CollisionFree(K.sha, W.corpus) && NodeInv(K, W, m, e) && AllMayStore(K, W, blocks)
    requires |envs| == |blocks| > 0 && Feed(K, envs, m, blocks, |blocks|).ok
    requires FeedAgrees(K, W, envs, m, blocks)
    ensures NodeInv(K, W, Feed(K, envs, m, blocks, |blocks|).node, d)
    ensures |d| + 1 >= blocks[|blocks| - 1].height && Appended(m, Feed(K, envs, m, blocks, |blocks|).node)
  {
    hide NodeInv;
    hide Feed;
    hide FedChain;
    hide CollisionFree;
    hide AllMayStore;
    hide FeedAgrees;
    hide SubmitOutcome;
    hide TipHash;
    hide Appended;
    var k := |blocks| - 1;
    FeedKeeps(K, W, envs, m, e, blocks, k + 1);
    NotRejected(K, W, envs, m, e, blocks, k);
    FedGrows(K, envs, m, e, blocks, k);
    d := FedChain(K, envs, m, e, blocks, k + 1);
  }

  /** Adoption of any list, linked or not, keeps the invariant and never lowers the tip. */
  lemma AdoptKeeps(K: Oracle, W: World, envs: seq<Env>, n: NodeState, c: seq<Block>,
                   ancestor: Hash, blocks: seq<Block>) returns (d: seq<Block>)
    requires CollisionFree(K.sha, W.corpus) && NodeInv(K, W, n, c)
    requires |envs| == |blocks| && AllMayStore(K, W, blocks) && AdoptAgrees(K, W, envs, n, ancestor, blocks)
    ensures !Adopt(K, envs, n, ancestor, blocks).Lost?
    ensures NodeInv(K, W, Adopt(K, envs, n, ancestor, blocks).node, d) && |d| >= |c|
    ensures Appended(n, Adopt(K, envs, n, ancestor, blocks).node)
  {
    hide NodeInv;
    hide ReplayTo;
    hide Adopt;
    hide Feed;
    hide ChainAt;
    hide CollisionFree;
    hide AllMayStore;
    hide FeedAgrees;
    hide Appended;
    hide Hashes;
    AdoptNothing(K, W, envs, n, c, ancestor, blocks);
    d := c;
    if Adopt(K, envs, n, ancestor, blocks).Kept? { AdoptNothingKeeps(K, W, envs, n, c, ancestor, blocks); }
    if Adopt(K, envs, n, ancestor, blocks).Adopted? {
      AdoptedNode(K, envs, n, ancestor, blocks);
      AdoptStart(K, W, n, c, ancestor);
      HadTip(K, W, n, c);
      var m := StartOf(n, ancestor).node;
      d := FedTall(K, W, envs, m, ChainAt(n.store, ancestor), blocks);
      AppendedTwice(n, m, Feed(K, envs, m, blocks, |blocks|).node);
    }
  }

  lemma FedGrows(K: Oracle, envs: seq<Env>, n: NodeState, c: seq<Block>, blocks: seq<Block>, k: nat)
    requires |envs| == |blocks| && k < |blocks|
    ensures |FedChain(K, envs, n, c, blocks, k)| <= |FedChain(K, envs, n, c, blocks, k + 1)|
  {
    hide SubmitOutcome;
    hide Submit;
    hide Stored;
    hide FirstCopy;
  }
}
